/** The buffered bit reader: bits are taken from the top of the current byte, which is shifted
    left in place. It delivers the bits of the byte stream, most significant first, however the
    stream is cut into chunks. */
module BitReader {
  import opened Collections
  import opened BitCodes

  type Byte = b: int | 0 <= b < 256

  const BUFFER_SIZE: nat := 4096

  /** x >> 7 on a byte. */
  function TopBit(b: Byte): Bit { b / 128 }

  /** x <<= 1 on a byte. */
  function ShiftLeft(b: Byte): Byte { if b < 128 then 2 * (b as int) else 2 * (b as int) - 256 }

  /** The `n` most significant bits of a byte, as repeated top-bit-and-shift yields them. */
  function Top(b: Byte, n: nat): (r: seq<Bit>)
    ensures |r| == n
    decreases n
  {
    if n == 0 then [] else [TopBit(b)] + Top(ShiftLeft(b), n - 1)
  }

  function AllBits(bytes: seq<Byte>): seq<Bit> {
    if bytes == [] then [] else Top(bytes[0], 8) + AllBits(bytes[1..])
  }

  /** Top(b, 8) is the binary representation of b. */
  lemma TopIsBinary(b: Byte)
    ensures Pow2(8) == 256 && Top(b, 8) == Binary(b, 8)
  {
    assert Pow2(8) == 256;
    TopOfShifted(b, 8);
  }

  /** x << k */
  function Shifted(x: nat, k: nat): nat { if k == 0 then x else 2 * Shifted(x, k - 1) }

  lemma {:induction false} ShiftedLinear(a: nat, b: nat, k: nat)
    ensures Shifted(a + b, k) == Shifted(a, k) + Shifted(b, k)
  {
    if k > 0 {
      ShiftedLinear(a, b, k - 1);
    }
  }

  lemma {:induction false} ShiftedPow2(p: nat, k: nat)
    ensures Shifted(Pow2(p), k) == Pow2(p + k)
  {
    if k > 0 {
      ShiftedPow2(p, k - 1);
    }
  }

  lemma {:induction false} ShiftedBelow(x: nat, p: nat, k: nat)
    requires x < Pow2(p)
    ensures Shifted(x, k) < Pow2(p + k)
  {
    if k > 0 {
      ShiftedBelow(x, p, k - 1);
    }
  }

  lemma TopNone(y: Byte)
    ensures Top(y, 0) == []
  {
  }

  lemma {:induction false} TopUnfold(y: Byte, n: nat, b: Bit, y': Byte)
    requires n > 0 && TopBit(y) == b && ShiftLeft(y) == y'
    ensures Top(y, n) == [b] + Top(y', n - 1)
  {
  }

  /** The top bit of x << (8 - n), and the byte after the shift. */
  lemma ShiftTop(x: nat, n: nat)
    requires 1 <= n <= 8 && x < Pow2(n)
    ensures Shifted(x, 8 - n) < 256
    ensures x < Pow2(n - 1) ==> TopBit(Shifted(x, 8 - n)) == 0 && ShiftLeft(Shifted(x, 8 - n)) == Shifted(x, 9 - n)
    ensures x >= Pow2(n - 1) ==>
              TopBit(Shifted(x, 8 - n)) == 1 && ShiftLeft(Shifted(x, 8 - n)) == Shifted(x - Pow2(n - 1), 9 - n)
  {
    var half, k := Pow2(n - 1), 8 - n;
    assert Pow2(8) == 256 && Pow2(7) == 128;
    ShiftedBelow(x, n, k);
    if x < half {
      ShiftedBelow(x, n - 1, k);
    } else {
      ShiftedLinear(x - half, half, k);
      ShiftedLinear(x - half, half, k + 1);
      ShiftedPow2(n - 1, k);
      ShiftedPow2(n - 1, k + 1);
    }
  }

  lemma {:induction false} TopOfShifted(x: nat, n: nat)
    requires n <= 8 && x < Pow2(n)
    ensures Shifted(x, 8 - n) < 256
    ensures Top(Shifted(x, 8 - n), n) == Binary(x, n)
    decreases n
  {
    if n == 0 {
      TopNone(Shifted(x, 8));
    } else {
      ShiftTop(x, n);
      var x' := if x < Pow2(n - 1) then x else x - Pow2(n - 1);
      TopOfShifted(x', n - 1);
      TopUnfold(Shifted(x, 8 - n), n, TopBit(Shifted(x, 8 - n)), Shifted(x', 9 - n));
    }
  }

  /** The unread bits of a buffer whose first `bit` of `bits` bits are used up. */
  function BufferBits(bytes: seq<Byte>, bit: nat, bits: nat): seq<Bit>
    requires bit <= bits <= 8 * |bytes| && bits % 8 == 0
  {
    if bit == bits then []
    else Top(bytes[bit / 8], 8 - bit % 8) + AllBits(bytes[bit / 8 + 1..bits / 8])
  }

  lemma BufferDone(bytes: seq<Byte>, bit: nat, bits: nat)
    requires bit == bits <= 8 * |bytes| && bits % 8 == 0
    ensures BufferBits(bytes, bit, bits) == []
  {
  }

  /** A freshly loaded buffer holds all bits of its bytes. */
  lemma {:induction false} LoadedBits(bytes: seq<Byte>, len: nat)
    requires len <= |bytes|
    ensures BufferBits(bytes, 0, 8 * len) == AllBits(bytes[..len])
  {
    if len > 0 {
      assert bytes[..len][0] == bytes[0] && bytes[..len][1..] == bytes[1..len];
    }
  }

  /** Taking the top bit of the current byte and shifting it pops the first unread bit. */
  lemma {:induction false} PopBit(bytes: seq<Byte>, bit: nat, bits: nat)
    requires bit < bits <= 8 * |bytes| && bits % 8 == 0
    ensures bit / 8 < |bytes|
    ensures BufferBits(bytes, bit, bits)
         == [TopBit(bytes[bit / 8])] + BufferBits(bytes[bit / 8 := ShiftLeft(bytes[bit / 8])], bit + 1, bits)
  {
    hide Top, AllBits;
    NextPosition(bit, bits);
    if bit % 8 == 7 {
      PopLast(bytes, bit / 8, bits / 8);
    } else {
      PopMiddle(bytes, bit / 8, bit % 8, bits / 8);
    }
  }

  lemma NextPosition(bit: nat, bits: nat)
    requires bit < bits && bits % 8 == 0
    ensures bit / 8 < bits / 8
    ensures bit % 8 == 7 ==> (bit + 1) / 8 == bit / 8 + 1 && (bit + 1) % 8 == 0
    ensures bit % 8 == 7 ==> (bit + 1 == bits <==> bit / 8 + 1 == bits / 8)
    ensures bit % 8 != 7 ==> (bit + 1) / 8 == bit / 8 && (bit + 1) % 8 == bit % 8 + 1 && bit + 1 < bits
  {
  }

  lemma {:induction false} PopMiddle(bytes: seq<Byte>, x: nat, r: nat, end: nat)
    requires x < end <= |bytes| && r < 7
    ensures var bytes' := bytes[x := ShiftLeft(bytes[x])];
            Top(bytes[x], 8 - r) + AllBits(bytes[x + 1..end])
            == [TopBit(bytes[x])] + (Top(bytes'[x], 7 - r) + AllBits(bytes'[x + 1..end]))
  {
    var bytes' := bytes[x := ShiftLeft(bytes[x])];
    assert bytes'[x + 1..end] == bytes[x + 1..end];
    Regroup([TopBit(bytes[x])], Top(bytes'[x], 7 - r), AllBits(bytes[x + 1..end]));
  }

  lemma {:induction false} PopLast(bytes: seq<Byte>, x: nat, end: nat)
    requires x < end <= |bytes|
    ensures var bytes' := bytes[x := ShiftLeft(bytes[x])];
            Top(bytes[x], 1) + AllBits(bytes[x + 1..end])
            == [TopBit(bytes[x])] + if x + 1 == end then [] else Top(bytes'[x + 1], 8) + AllBits(bytes'[x + 2..end])
  {
    var bytes' := bytes[x := ShiftLeft(bytes[x])];
    assert bytes'[x + 1..end] == bytes[x + 1..end];
    assert Top(bytes[x], 1) == [TopBit(bytes[x])];
    NextByte(bytes', x, end);
  }

  lemma {:induction false} PopStream(bytes: seq<Byte>, bit: nat, bits: nat, more: seq<Bit>)
    requires bit < bits <= 8 * |bytes| && bits % 8 == 0
    ensures bit / 8 < |bytes|
    ensures BufferBits(bytes, bit, bits) + more
         == [TopBit(bytes[bit / 8])] + (BufferBits(bytes[bit / 8 := ShiftLeft(bytes[bit / 8])], bit + 1, bits) + more)
  {
    PopBit(bytes, bit, bits);
    Regroup([TopBit(bytes[bit / 8])], BufferBits(bytes[bit / 8 := ShiftLeft(bytes[bit / 8])], bit + 1, bits), more);
  }

  lemma {:induction false} NextByte(bytes: seq<Byte>, x: nat, end: nat)
    requires x < end <= |bytes|
    ensures AllBits(bytes[x + 1..end]) ==
              if x + 1 == end then [] else Top(bytes[x + 1], 8) + AllBits(bytes[x + 2..end])
  {
    if x + 1 < end {
      assert bytes[x + 1..end][0] == bytes[x + 1] && bytes[x + 1..end][1..] == bytes[x + 2..end];
    }
  }

  class BitReader {
    /** What the underlying byte reader has not delivered yet. */
    var source: seq<Byte>
    const buf: array<Byte>
    var bufBits: nat
    var bufBit: nat
    var eof: bool

    /** The bits still to come. */
    ghost var view: Stream

    ghost predicate Shaped()
      reads this
    {
      buf.Length == BUFFER_SIZE && bufBits <= 8 * BUFFER_SIZE && bufBits % 8 == 0 && bufBit <= bufBits
    }

    ghost predicate Valid()
      reads this, buf
      ensures Valid() ==> view.eof == eof && (eof ==> view.rest == [])
    {
      && Shaped()
      && (eof ==> bufBit == bufBits && source == [])
      && view == Stream(BufferBits(buf[..], bufBit, bufBits) + AllBits(source), eof)
    }

    constructor (bytes: seq<Byte>)
      ensures Valid() && fresh(buf) && view == Stream(AllBits(bytes), false)
    {
      source := bytes;
      buf := new Byte[BUFFER_SIZE](_ => 0);
      bufBits, bufBit, eof := 0, 0, false;
      view := Stream(AllBits(bytes), false);
    }

    /** fillBuf: some non-empty chunk of the stream, or nothing at its end. */
    method FillBuf() returns (more: bool)
      requires Valid() && bufBit == bufBits
      modifies this, buf
      ensures Valid() && view == Stream(old(view).rest, !more)
      ensures more <==> old(view).rest != []
      ensures more ==> bufBit < bufBits && !old(eof)
    {
      hide AllBits, BufferBits;
      AllBitsLength(source);
      BufferDone(buf[..], bufBit, bufBits);
      if eof {
        return false;
      }
      var len :| 0 <= len <= BUFFER_SIZE && len <= |source| && (len == 0 <==> source == []);
      forall i | 0 <= i < len {
        buf[i] := source[i];
      }
      AllBitsSplit(source, len);
      assert buf[..][..len] == source[..len];
      LoadedBits(buf[..], len);
      source := source[len..];
      bufBits := 8 * len;
      bufBit := 0;
      eof := bufBits == 0;
      view := Stream(view.rest, eof);
      return !eof;
    }

    /** The buffered part of readBit: the top bit of the current byte, which is shifted. */
    method TakeBit() returns (b: Bit)
      requires Valid() && bufBit < bufBits
      modifies this, buf
      ensures Valid() && [b] + view.rest == old(view).rest && view.eof == old(view).eof
    {
      hide BufferBits, AllBits, ShiftLeft;
      ghost var bytes := buf[..];
      PopStream(bytes, bufBit, bufBits, AllBits(source));
      var x := bufBit / 8;
      bufBit := bufBit + 1;
      b := TopBit(buf[x]);
      buf[x] := ShiftLeft(buf[x]);
      assert buf[..] == bytes[x := ShiftLeft(bytes[x])];
      view := Stream(BufferBits(buf[..], bufBit, bufBits) + AllBits(source), eof);
    }

    method ReadBit() returns (b: Bit)
      requires Valid()
      modifies this, buf
      ensures Valid() && (b, view) == BitCodes.ReadBit(old(view))
    {
      if bufBit == bufBits {
        var more := FillBuf();
        if !more {
          return 0;
        }
      }
      b := TakeBit();
      PushedBack(b, view.rest, old(view));
    }

    method ReadUnary() returns (res: nat)
      requires Valid()
      modifies this, buf
      ensures Valid() && (res, view) == BitCodes.ReadUnary(old(view))
    {
      hide Valid;
      res := 0;
      ghost var s, goal := view, BitCodes.ReadUnary(view);
      while !eof
        invariant Valid() && s == view
        invariant goal == (res + BitCodes.ReadUnary(s).0, BitCodes.ReadUnary(s).1)
        decreases |s.rest|, if s.eof then 0 else 1
      {
        var b := ReadBit();
        UnaryStep(s);
        s := view;
        if b == 1 {
          return;
        }
        res := res + 1;
      }
    }

    method ReadFixed(w: nat) returns (res: nat)
      requires Valid()
      modifies this, buf
      ensures Valid() && (res, view) == BitCodes.ReadFixed(old(view), w, 0)
    {
      hide Valid;
      res := 0;
      ghost var s, goal := view, BitCodes.ReadFixed(view, w, 0);
      for i := 0 to w
        invariant Valid() && s == view && goal == BitCodes.ReadFixed(s, w - i, res)
      {
        var b := ReadBit();
        FixedStep(s, w - i, res);
        res := Push(res, b);
        s := view;
      }
    }

    method ReadSGamma() returns (res: nat)
      requires Valid()
      modifies this, buf
      ensures Valid() && (res, view) == ReadGamma(old(view))
    {
      hide Valid;
      var n := ReadUnary();
      var v := ReadFixed(n);
      res := Minus1(Shl(n) + v);
    }

    method ReadZeta(k: nat) returns (res: nat)
      requires Valid() && k >= 1
      modifies this, buf
      ensures Valid() && (res, view) == BitCodes.ReadZeta(old(view), k)
    {
      hide Valid;
      var h := ReadUnary();
      res := ReadZetaRest(h * k, k);
    }

    method ReadZetaRest(hk: nat, k: nat) returns (res: nat)
      requires Valid() && k >= 1
      modifies this, buf
      ensures Valid() && (res, view) == ReadZetaBody(old(view), hk, k)
    {
      hide Valid;
      var left := Shl(hk);
      var m := ReadFixed(hk + k - 1);
      if m < left {
        return Minus1(m + left);
      }
      var b := ReadBit();
      return Minus1(2 * m + b);
    }
  }

  lemma {:induction false} AllBitsSplit(bytes: seq<Byte>, i: nat)
    requires i <= |bytes|
    ensures AllBits(bytes) == AllBits(bytes[..i]) + AllBits(bytes[i..])
    decreases i
  {
    if i > 0 {
      AllBitsSplit(bytes[1..], i - 1);
      assert bytes[..i][1..] == bytes[1..][..i - 1];
      assert bytes[1..][i - 1..] == bytes[i..];
    } else {
      assert bytes[..0] == [] && bytes[0..] == bytes;
    }
  }

  lemma {:induction false} PushedBack(b: Bit, rest: seq<Bit>, s: Stream)
    requires s.rest == [b] + rest
    ensures BitCodes.ReadBit(s) == (b, Stream(rest, s.eof))
  {
    assert s.rest[1..] == rest;
  }

  lemma {:induction false} UnaryStep(s: Stream)
    requires !s.eof
    ensures BitCodes.ReadUnary(s) ==
              (var (b, s1) := BitCodes.ReadBit(s);
               if b == 1 then (0, s1) else (BitCodes.ReadUnary(s1).0 + 1, BitCodes.ReadUnary(s1).1))
  {
  }

  lemma {:induction false} FixedStep(s: Stream, w: nat, res: nat)
    requires w > 0
    ensures BitCodes.ReadFixed(s, w, res) ==
              BitCodes.ReadFixed(BitCodes.ReadBit(s).1, w - 1, Push(res, BitCodes.ReadBit(s).0))
  {
  }

  lemma AllBitsLength(bytes: seq<Byte>)
    ensures AllBits(bytes) == [] <==> bytes == []
  {
  }
}
