/** The instantaneous codes of the WebGraph format: unary, fixed width, gamma and zeta_k over
    a bit stream, with the reader's behaviour at the end of the file, and their encoders. */
module BitCodes {
  import opened Collections

  type Bit = b: int | 0 <= b <= 1

  const WORD: nat := 0x1_0000_0000

  /** The bits still to come, and whether a read past the end has happened. */
  datatype Stream = Stream(rest: seq<Bit>, eof: bool)

  function Pow2(n: nat): (r: nat)
    ensures r >= 1
  {
    if n == 0 then 1 else 2 * Pow2(n - 1)
  }

  // ---------------------------------------------------------------- reading

  /** readBit: the next bit, or 0 with `eof` set when there is none. */
  function ReadBit(s: Stream): (Bit, Stream) {
    if s.rest == [] then (0, Stream([], true)) else (s.rest[0], Stream(s.rest[1..], s.eof))
  }

  /** readUnary: the number of zeros before the next one, which is consumed. A read that runs
      off the end counts too. */
  function ReadUnary(s: Stream): (r: (nat, Stream))
    ensures |r.1.rest| <= |s.rest|
    decreases |s.rest|, if s.eof then 0 else 1
  {
    if s.eof then (0, s)
    else
      var (b, s1) := ReadBit(s);
      if b == 1 then (0, s1) else var (n, s2) := ReadUnary(s1); (n + 1, s2)
  }

  /** readFixed, from the partial result `res`, in 32-bit arithmetic. */
  function ReadFixed(s: Stream, w: nat, res: nat): (nat, Stream)
    decreases w
  {
    if w == 0 then (res, s)
    else var (b, s1) := ReadBit(s); ReadFixed(s1, w - 1, Push(res, b))
  }

  /** (res << 1) | b in 32 bits. */
  function Push(res: nat, b: Bit): nat { (2 * res + b) % WORD }

  /** x - 1 in 32 bits. */
  function Minus1(x: nat): nat { (x + WORD - 1) % WORD }

  /** 1 << n in 32 bits. */
  function Shl(n: nat): nat { if n < 32 then Pow2(n) else 0 }

  function ReadGamma(s: Stream): (nat, Stream) {
    var (n, s1) := ReadUnary(s);
    var (v, s2) := ReadFixed(s1, n, 0);
    (Minus1(Shl(n) + v), s2)
  }

  function ReadZeta(s: Stream, k: nat): (nat, Stream)
    requires k >= 1
  {
    var (h, s1) := ReadUnary(s);
    ReadZetaBody(s1, h * k, k)
  }

  /** The part of readZeta after the unary prefix h, with hk = h * k. */
  function ReadZetaBody(s: Stream, hk: nat, k: nat): (nat, Stream)
    requires k >= 1
  {
    var left := Shl(hk);
    var (m, s2) := ReadFixed(s, hk + k - 1, 0);
    if m < left then (Minus1(m + left), s2)
    else var (b, s3) := ReadBit(s2); (Minus1(2 * m + b), s3)
  }

  // ---------------------------------------------------------------- encoding

  /** The `w` low bits of `x`, most significant first. */
  function Binary(x: nat, w: nat): (r: seq<Bit>)
    requires x < Pow2(w)
    ensures |r| == w
  {
    if w == 0 then []
    else if x < Pow2(w - 1) then [0] + Binary(x, w - 1)
    else [1] + Binary(x - Pow2(w - 1), w - 1)
  }

  function Zeros(n: nat): (r: seq<Bit>)
    ensures |r| == n
  {
    if n == 0 then [] else [0] + Zeros(n - 1)
  }

  function Log2(n: nat): (r: nat)
    requires n >= 1
    ensures Pow2(r) <= n < Pow2(r + 1)
  {
    if n == 1 then 0 else 1 + Log2(n / 2)
  }

  function UnaryCode(n: nat): seq<Bit> { Zeros(n) + [1] }

  /** Gamma code of x >= 0 (shifted by one, as the format uses it). */
  function GammaCode(x: nat): seq<Bit> {
    var z := Log2(x + 1);
    UnaryCode(z) + Binary(x + 1 - Pow2(z), z)
  }

  /** The unary part of the zeta_k code of y >= 1. */
  function ZetaClass(y: nat, k: nat): nat
    requires y >= 1 && k >= 1
  {
    Log2(y) / k
  }

  ghost predicate InClass(y: nat, hk: nat, k: nat) {
    k >= 1 && Pow2(hk) <= y < Pow2(hk + k) && Pow2(hk) <= Pow2(hk + k - 1) && Pow2(hk + k) == 2 * Pow2(hk + k - 1)
  }

  /** y in [2^hk, 2^(hk+k)): its offset in that interval is written with hk + k - 1 bits when
      it is below 2^hk, else y itself with hk + k bits. */
  function ZetaBody(y: nat, hk: nat, k: nat): seq<Bit>
    requires InClass(y, hk, k)
  {
    if y - Pow2(hk) < Pow2(hk) then Binary(y - Pow2(hk), hk + k - 1) else Binary(y, hk + k)
  }

  /** Zeta_k code of x >= 0, shifted by one. */
  function ZetaCode(x: nat, k: nat): seq<Bit>
    requires k >= 1
  {
    var h := ZetaClass(x + 1, k);
    ZetaBounds(x + 1, k);
    UnaryCode(h) + ZetaBody(x + 1, h * k, k)
  }

  // ---------------------------------------------------------------- arithmetic

  lemma {:induction false} Pow2Monotone(a: nat, b: nat)
    requires a <= b
    ensures Pow2(a) <= Pow2(b)
  {
    if a < b {
      Pow2Monotone(a, b - 1);
    }
  }

  lemma Pow2Word()
    ensures Pow2(31) == 0x8000_0000 && Pow2(32) == WORD
  {
    assert Pow2(8) == 256;
    assert Pow2(16) == 65536;
    assert Pow2(24) == 16777216;
    assert Pow2(31) == 2147483648;
  }

  lemma Log2Fits(y: nat)
    requires 1 <= y < WORD
    ensures Log2(y) <= 31
  {
    Pow2Word();
    if Log2(y) >= 32 {
      Pow2Monotone(32, Log2(y));
    }
  }

  lemma Parts(l: nat, k: nat)
    requires k >= 1
    ensures 0 <= (l / k) * k <= l < (l / k) * k + k
  {
  }

  lemma ZetaBounds(y: nat, k: nat)
    requires y >= 1 && k >= 1
    ensures 0 <= ZetaClass(y, k) * k <= Log2(y)
    ensures InClass(y, ZetaClass(y, k) * k, k)
  {
    Parts(Log2(y), k);
    BoundsAt(y, Log2(y), ZetaClass(y, k) * k, k);
  }

  lemma BoundsAt(y: nat, l: nat, hk: nat, k: nat)
    requires k >= 1 && Pow2(l) <= y < Pow2(l + 1) && hk <= l < hk + k
    ensures InClass(y, hk, k)
  {
    Pow2Monotone(hk, l);
    Pow2Monotone(l + 1, hk + k);
    Pow2Monotone(hk, hk + k - 1);
  }

  // ---------------------------------------------------------------- round trips

  /** Appending `bits` to the partial result, most significant first. */
  function ValueFrom(res: nat, bits: seq<Bit>): nat
    decreases |bits|
  {
    if bits == [] then res else ValueFrom(2 * res + bits[0], bits[1..])
  }

  lemma {:induction false} ValueGrows(res: nat, bits: seq<Bit>)
    ensures ValueFrom(res, bits) >= res
    decreases |bits|
  {
    if bits != [] {
      ValueGrows(2 * res + bits[0], bits[1..]);
    }
  }

  lemma {:induction false} FixedReads(bits: seq<Bit>, tail: seq<Bit>, res: nat)
    requires ValueFrom(res, bits) < WORD
    ensures ReadFixed(Stream(bits + tail, false), |bits|, res) == (ValueFrom(res, bits), Stream(tail, false))
    decreases |bits|
  {
    if bits == [] {
      assert bits + tail == tail;
    } else {
      ValueGrows(2 * res + bits[0], bits[1..]);
      assert (bits + tail)[0] == bits[0] && (bits + tail)[1..] == bits[1..] + tail;
      SmallMod(2 * res + bits[0], WORD);
      FixedReads(bits[1..], tail, 2 * res + bits[0]);
    }
  }

  /** res * 2^w */
  function Scale(res: nat, w: nat): nat
    decreases w
  {
    if w == 0 then res else Scale(2 * res, w - 1)
  }

  lemma {:induction false} ScaleAdd(a: nat, b: nat, w: nat)
    ensures Scale(a + b, w) == Scale(a, w) + Scale(b, w)
    decreases w
  {
    if w > 0 {
      ScaleAdd(2 * a, 2 * b, w - 1);
    }
  }

  lemma {:induction false} ScaleOne(w: nat)
    ensures Scale(1, w) == Pow2(w) && Scale(0, w) == 0
    decreases w
  {
    if w > 0 {
      ScaleOne(w - 1);
      ScaleAdd(1, 1, w - 1);
    }
  }

  lemma {:induction false} BinaryValue(res: nat, x: nat, w: nat)
    requires x < Pow2(w)
    ensures ValueFrom(res, Binary(x, w)) == Scale(res, w) + x
    decreases w
  {
    if w > 0 {
      var half := Pow2(w - 1);
      if x < half {
        assert Binary(x, w)[1..] == Binary(x, w - 1);
        BinaryValue(2 * res, x, w - 1);
      } else {
        assert Binary(x, w)[1..] == Binary(x - half, w - 1);
        BinaryValue(2 * res + 1, x - half, w - 1);
        ScaleAdd(2 * res, 1, w - 1);
        ScaleOne(w - 1);
      }
    }
  }

  /** Fixed-width round trip. */
  lemma FixedRoundTrip(x: nat, w: nat, tail: seq<Bit>)
    requires x < Pow2(w) && x < WORD
    ensures ReadFixed(Stream(Binary(x, w) + tail, false), w, 0) == (x, Stream(tail, false))
  {
    BinaryValue(0, x, w);
    ScaleOne(w);
    FixedReads(Binary(x, w), tail, 0);
  }

  /** Unary round trip. */
  lemma {:induction false} UnaryRoundTrip(n: nat, tail: seq<Bit>)
    ensures ReadUnary(Stream(UnaryCode(n) + tail, false)) == (n, Stream(tail, false))
  {
    var all := UnaryCode(n) + tail;
    if n == 0 {
      assert all[0] == 1 && all[1..] == tail;
    } else {
      assert all[0] == 0 && all[1..] == UnaryCode(n - 1) + tail;
      UnaryRoundTrip(n - 1, tail);
    }
  }

  /** readSGamma inverts the gamma code and consumes exactly the codeword. */
  lemma GammaRoundTrip(x: nat, tail: seq<Bit>)
    requires x + 1 < WORD
    ensures ReadGamma(Stream(GammaCode(x) + tail, false)) == (x, Stream(tail, false))
  {
    hide ReadUnary, ReadFixed, UnaryCode, Binary, Log2;
    var z := Log2(x + 1);
    var code := Binary(x + 1 - Pow2(z), z);
    assert GammaCode(x) + tail == UnaryCode(z) + (code + tail);
    UnaryRoundTrip(z, code + tail);
    FixedRoundTrip(x + 1 - Pow2(z), z, tail);
    Log2Fits(x + 1);
    assert (x + WORD) % WORD == x;
  }

  lemma MinusOne(v: nat)
    requires 1 <= v < WORD
    ensures (v + WORD - 1) % WORD == v - 1
  {
  }

  /** The body of a zeta codeword reads back, in its short and in its long form. */
  lemma ZetaBodyReads(y: nat, hk: nat, k: nat, tail: seq<Bit>)
    requires InClass(y, hk, k) && y < WORD && hk <= 31
    ensures ReadZetaBody(Stream(ZetaBody(y, hk, k) + tail, false), hk, k) == (y - 1, Stream(tail, false))
  {
    hide ReadFixed, Binary;
    var w := hk + k - 1;
    MinusOne(y);
    if y - Pow2(hk) < Pow2(hk) {
      FixedRoundTrip(y - Pow2(hk), w, tail);
    } else {
      SplitBinary(y, w);
      var b := [(y % 2) as Bit];
      assert Binary(y, w + 1) + tail == Binary(y / 2, w) + (b + tail);
      FixedRoundTrip(y / 2, w, b + tail);
      assert (b + tail)[0] == y % 2 && (b + tail)[1..] == tail;
    }
  }

  /** readZeta(k) inverts the zeta_k code and consumes exactly the codeword. */
  lemma ZetaRoundTrip(x: nat, k: nat, tail: seq<Bit>)
    requires k >= 1 && x + 1 < WORD
    ensures ReadZeta(Stream(ZetaCode(x, k) + tail, false), k) == (x, Stream(tail, false))
  {
    hide ReadUnary, ReadZetaBody, UnaryCode, ZetaBody, Log2;
    var h := ZetaClass(x + 1, k);
    ZetaBounds(x + 1, k);
    Log2Fits(x + 1);
    var body := ZetaBody(x + 1, h * k, k);
    assert ZetaCode(x, k) + tail == UnaryCode(h) + (body + tail);
    UnaryRoundTrip(h, body + tail);
    ZetaBodyReads(x + 1, h * k, k, tail);
  }

  /** The last bit of a number's code is its parity. */
  lemma {:induction false} SplitBinary(x: nat, w: nat)
    requires x < 2 * Pow2(w)
    ensures x / 2 < Pow2(w)
    ensures Binary(x, w + 1) == Binary(x / 2, w) + [(x % 2) as Bit]
    decreases w
  {
    if w == 0 {
      assert x == x % 2 && x / 2 == 0;
      assert Binary(0, 0) == [];
    } else {
      var half := Pow2(w);
      if x < half {
        SplitBinary(x, w - 1);
      } else {
        SplitBinary(x - half, w - 1);
        assert half == 2 * Pow2(w - 1);
        assert (x - half) / 2 == x / 2 - Pow2(w - 1) && (x - half) % 2 == x % 2;
      }
    }
  }

  /** zeta_1 is gamma: the codes are equal, and so are the readers wherever 1 << n is defined. */
  lemma ZetaOneIsGamma(x: nat, s: Stream)
    ensures ZetaCode(x, 1) == GammaCode(x)
    ensures ReadUnary(s).0 < 32 ==> ReadZeta(s, 1) == ReadGamma(s)
  {
    ZetaBounds(x + 1, 1);
    var (h, s1) := ReadUnary(s);
    if h < 32 {
      FixedBelow(s1, h, 0, 0);
    }
  }

  /** A fixed-width read of `w` < 32 more bits stays below 2^(done + w). */
  lemma {:induction false} FixedBelow(s: Stream, w: nat, res: nat, done: nat)
    requires done + w < 32 && res < Pow2(done)
    ensures ReadFixed(s, w, res).0 < Pow2(done + w)
    decreases w
  {
    if w > 0 {
      var (b, s1) := ReadBit(s);
      Pow2Word();
      Pow2Monotone(done + 1, 31);
      SmallMod(2 * res + b, WORD);
      FixedBelow(s1, w - 1, 2 * res + b, done + 1);
    }
  }

  // ---------------------------------------------------------------- signed numbers

  /** nat2int on a 32-bit unsigned: even numbers are non-negative, odd ones negative. */
  function NatToInt(n: nat): int
    requires n < WORD
  {
    if n % 2 == 1 then -(((n + 1) % WORD) / 2) else n / 2
  }

  function IntToNat(i: int): nat { if i >= 0 then 2 * i else -2 * i - 1 }

  /** Every number that fits is hit, by its own code. */
  lemma IntRoundTrip(i: int)
    requires -0x8000_0000 < i < 0x8000_0000
    ensures IntToNat(i) < WORD && NatToInt(IntToNat(i)) == i
  {
  }

  /** nat2int is injective on all of its arguments but one: 2^32 - 1 wraps around to 0. */
  lemma NatRoundTrip(n: nat)
    requires n < WORD
    ensures IntToNat(NatToInt(n)) == n <==> n != WORD - 1
    ensures NatToInt(WORD - 1) == NatToInt(0)
  {
    if n % 2 == 1 && n < WORD - 1 {
      assert (n + 1) % WORD == n + 1;
    }
  }
}
