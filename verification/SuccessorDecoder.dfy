/** The parts of one node's decoding: the copied blocks, the intervals, the residuals, and the
    merges, on values and on the bit stream. */
module SuccessorDecoder {
  import opened Collections
  import opened BitCodes
  import opened SuccessorCodes
  import BitReader

  // ---------------------------------------------------------------- 32-bit arithmetic

  /** A number as a uint32_t. */
  function Wrap(x: int): (r: nat)
    ensures r < WORD
  {
    x % WORD
  }

  /** A uint32_t as an int. */
  function Signed(x: nat): int { if x < LIMIT then x else x - WORD }

  /** left = prevRight + delta + 1, computed through unsigned wrap-around. */
  lemma WrapSum(prev: int, delta: int)
    requires 0 <= prev + delta + 1 < LIMIT
    ensures Signed(Wrap(Wrap(prev) + Wrap(delta) + 1)) == prev + delta + 1
  {
    assert Wrap(Wrap(prev) + Wrap(delta) + 1) == prev + delta + 1;
  }

  lemma WrapSigned(x: nat)
    requires x < WORD
    ensures Wrap(Signed(x)) == x
  {
  }

  // ---------------------------------------------------------------- the parts of readNode

  /** All blocks are decremented by one in the stream except the first. */
  method IncrementBlocks(codes: seq<nat>, ghost blocks: seq<nat>) returns (r: seq<nat>)
    requires forall i :: 1 <= i < |blocks| ==> blocks[i] >= 1
    requires codes == BlockCodes(blocks)
    ensures r == blocks
  {
    r := codes;
    var i := 1;
    while i < |codes|
      invariant |r| == |codes| && i >= 1
      invariant forall j :: 0 <= j < |r| ==> r[j] == if j < i then blocks[j] else codes[j]
    {
      r := r[i := r[i] + 1];
      i := i + 1;
    }
  }

  /** What the copy loop has put out, and what is left for it to do. */
  ghost predicate Copying(ref: Links, blocks: seq<nat>, i: nat, src: nat, out: Links) {
    && i <= |blocks| && Sum(blocks) <= |ref| && src + Sum(blocks[i..]) <= |ref|
    && out + Copied(ref[src..], blocks[i..], i % 2 == 0) == Copied(ref, blocks, true)
  }

  lemma {:induction false} CopyStarts(ref: Links, blocks: seq<nat>)
    requires Sum(blocks) <= |ref|
    ensures Copying(ref, blocks, 0, 0, [])
  {
    assert ref[0..] == ref && blocks[0..] == blocks;
    assert [] + Copied(ref, blocks, true) == Copied(ref, blocks, true);
  }

  lemma {:induction false} CopiedAt(ref: Links, blocks: seq<nat>, i: nat, src: nat, copying: bool)
    requires i < |blocks| && src + Sum(blocks[i..]) <= |ref|
    ensures src + blocks[i] + Sum(blocks[i + 1..]) <= |ref|
    ensures Copied(ref[src..], blocks[i..], copying)
         == (if copying then ref[src..src + blocks[i]] else [])
            + Copied(ref[src + blocks[i]..], blocks[i + 1..], !copying)
  {
    var s, t := ref[src..], blocks[i..];
    assert t[1..] == blocks[i + 1..];
    assert s[..t[0]] == ref[src..src + blocks[i]];
    assert s[t[0]..] == ref[src + blocks[i]..];
  }

  lemma {:induction false} CopyStep(ref: Links, blocks: seq<nat>, i: nat, src: nat, out: Links)
    requires Copying(ref, blocks, i, src, out) && i < |blocks|
    ensures src + blocks[i] <= |ref|
    ensures Copying(ref, blocks, i + 1, src + blocks[i],
                    if i % 2 == 0 then out + ref[src..src + blocks[i]] else out)
  {
    hide Copied, Sum;
    CopiedAt(ref, blocks, i, src, i % 2 == 0);
    var rest := Copied(ref[src + blocks[i]..], blocks[i + 1..], i % 2 != 0);
    Regroup(out, ref[src..src + blocks[i]], rest);
    assert [] + rest == rest;
  }

  lemma {:induction false} CopyEnds(ref: Links, blocks: seq<nat>, src: nat, out: Links)
    requires Copying(ref, blocks, |blocks|, src, out)
    ensures src <= |ref|
    ensures (if |blocks| % 2 == 0 then out + ref[src..] else out) == Copied(ref, blocks, true)
  {
    assert blocks[|blocks|..] == [];
  }

  /** The copied part, block by block. No block reaches beyond the referenced list. */
  method CopyBlocks(ref: Links, copyList: seq<nat>) returns (out: Links)
    requires Sum(copyList) <= |ref|
    ensures out == Copied(ref, copyList, true)
  {
    hide Copying, Copied, Sum;
    CopyStarts(ref, copyList);
    out := [];
    var src := 0;
    for i := 0 to |copyList|
      invariant src >= 0 && Copying(ref, copyList, i, src, out)
    {
      CopyStep(ref, copyList, i, src, out);
      if i % 2 == 0 {
        out := out + ref[src..src + copyList[i]];
      }
      src := src + copyList[i];
    }
    CopyEnds(ref, copyList, src, out);
    if |copyList| % 2 == 0 {
      out := out + ref[src..];
    }
  }

  /** The first left becomes signed, and is kept in an unsigned variable. */
  function FirstSigned(codes: seq<(nat, nat)>): (r: seq<(nat, nat)>)
    requires codes != [] ==> codes[0].0 < WORD
    ensures |r| == |codes|
  {
    if codes == [] then [] else codes[0 := (Wrap(NatToInt(codes[0].0)), codes[0].1)]
  }

  /** What the loop below has still to decode: the deltas of the intervals after `prev`. */
  ghost predicate Deltas(cfg: Config, iv: seq<Interval>, prev: int, codes: seq<(nat, nat)>) {
    |codes| == |iv| &&
    (iv == [] ||
     (cfg.minIntervalLength <= iv[0].len && iv[0].left + iv[0].len <= LIMIT && iv[0].len > 0
      && codes[0].0 == Wrap(iv[0].left - prev - 1) && codes[0].1 == iv[0].len - cfg.minIntervalLength
      && Deltas(cfg, iv[1..], iv[0].left + iv[0].len, codes[1..])))
  }

  lemma {:induction false} TailDeltas(cfg: Config, iv: seq<Interval>, prev: int)
    requires Spaced(cfg, iv, prev) && prev >= -1 && cfg.minIntervalLength > 0
    ensures Deltas(cfg, iv, prev, IntervalCodes(cfg, iv, prev))
  {
    if iv != [] {
      TailDeltas(cfg, iv[1..], iv[0].left + iv[0].len);
      assert IntervalCodes(cfg, iv, prev)[1..] == IntervalCodes(cfg, iv[1..], iv[0].left + iv[0].len);
    }
  }

  lemma {:induction false} AllDeltas(cfg: Config, node: nat, iv: seq<Interval>)
    requires Spaced(cfg, iv, -1) && node < LIMIT && cfg.minIntervalLength > 0
    ensures forall i :: 0 <= i < |iv| ==>
              AllIntervalCodes(cfg, node, iv)[i].0 + 1 < WORD && AllIntervalCodes(cfg, node, iv)[i].1 + 1 < WORD
    ensures Deltas(cfg, iv, node - 1, FirstSigned(AllIntervalCodes(cfg, node, iv)))
  {
    if iv != [] {
      var codes := AllIntervalCodes(cfg, node, iv);
      var prev := iv[0].left + iv[0].len;
      IntRoundTrip(iv[0].left - node);
      TailDeltas(cfg, iv[1..], prev);
      assert FirstSigned(codes)[1..] == IntervalCodes(cfg, iv[1..], prev);
      TailFits(cfg, iv[1..], prev);
    }
  }

  lemma {:induction false} TailFits(cfg: Config, iv: seq<Interval>, prev: int)
    requires Spaced(cfg, iv, prev) && prev >= -1
    ensures forall i :: 0 <= i < |iv| ==>
              IntervalCodes(cfg, iv, prev)[i].0 + 1 < WORD && IntervalCodes(cfg, iv, prev)[i].1 + 1 < WORD
  {
    if iv != [] {
      TailFits(cfg, iv[1..], iv[0].left + iv[0].len);
    }
  }

  /** One turn of the loop: the left end from the end before, through unsigned arithmetic. */
  lemma {:induction false} NextInterval(cfg: Config, iv: seq<Interval>, prev: int, codes: seq<(nat, nat)>, i: nat)
    requires i < |codes| && Deltas(cfg, iv, prev, codes[i..])
    ensures iv != [] && Signed(Wrap(Wrap(prev) + codes[i].0 + 1)) == iv[0].left
    ensures codes[i].1 + cfg.minIntervalLength == iv[0].len
    ensures Deltas(cfg, iv[1..], iv[0].left + iv[0].len, codes[i + 1..])
    ensures Expanded(iv) == Range(iv[0].left, iv[0].len) + Expanded(iv[1..])
  {
    assert codes[i..][1..] == codes[i + 1..];
    WrapSum(prev, iv[0].left - prev - 1);
  }

  lemma NoIntervals(cfg: Config, iv: seq<Interval>, prev: int, codes: seq<(nat, nat)>)
    requires Deltas(cfg, iv, prev, codes[|codes|..])
    ensures Expanded(iv) == []
  {
  }

  /** The intervals, expanded. */
  method DecodeIntervals(cfg: Config, node: nat, codes: seq<(nat, nat)>, ghost iv: seq<Interval>) returns (out: Links)
    requires Deltas(cfg, iv, node - 1, codes)
    ensures out == Expanded(iv)
  {
    hide Deltas, Expanded, Signed, Wrap;
    out := [];
    var prevRight: nat := Wrap(node - 1);
    ghost var prev: int, todo := node - 1, iv;
    assert [] + Expanded(iv) == Expanded(iv) && codes[0..] == codes;
    for i := 0 to |codes|
      invariant Deltas(cfg, todo, prev, codes[i..]) && prevRight == Wrap(prev)
      invariant out + Expanded(todo) == Expanded(iv)
    {
      NextInterval(cfg, todo, prev, codes, i);
      var left := Signed(Wrap(prevRight + codes[i].0 + 1));
      var len := codes[i].1 + cfg.minIntervalLength;
      prevRight := Wrap(left + len);
      var run := Counting(left, len);
      Regroup(out, run, Expanded(todo[1..]));
      out := out + run;
      prev, todo := left + len, todo[1..];
    }
    NoIntervals(cfg, todo, prev, codes);
  }

  /** The inner loop: left, left + 1, and so on. */
  method Counting(left: int, len: nat) returns (out: Links)
    ensures out == Range(left, len)
  {
    out := [];
    for j := 0 to len
      invariant out == Range(left, j)
    {
      out := out + [left + j];
    }
  }

  /** The residuals the loop below has still to decode. */
  ghost predicate Gaps(rs: Links, prev: int, codes: seq<int>) {
    |codes| == |rs| && (rs == [] || (codes[0] == rs[0] - prev - 1 && Gaps(rs[1..], rs[0], codes[1..])))
  }

  /** The zeta values as ints, the first one as a signed number. */
  function Ints(codes: seq<nat>): (r: seq<int>)
    requires codes != [] ==> codes[0] < WORD
    ensures |r| == |codes|
  {
    seq(|codes|, (i: nat) requires i < |codes| =>
      if i == 0 then NatToInt(Wrap(Signed(codes[0]))) else Signed(codes[i]))
  }

  lemma {:induction false} TailGaps(rs: Links, prev: int, ints: seq<int>)
    requires Climbing(rs, prev) && prev >= -1
    requires |ints| == |rs| && forall i :: 0 <= i < |rs| ==> ints[i] == Signed(ResidualCodes(rs, prev)[i])
    ensures Gaps(rs, prev, ints)
    ensures forall i :: 0 <= i < |rs| ==> ResidualCodes(rs, prev)[i] + 1 < WORD
  {
    if rs != [] {
      assert ResidualCodes(rs, prev)[1..] == ResidualCodes(rs[1..], rs[0]);
      TailGaps(rs[1..], rs[0], ints[1..]);
    }
  }

  lemma {:induction false} AllGaps(node: nat, rs: Links)
    requires Climbing(rs, -1) && node < LIMIT
    ensures forall i :: 0 <= i < |rs| ==> AllResidualCodes(node, rs)[i] + 1 < WORD
    ensures Gaps(rs, node - 1, Ints(AllResidualCodes(node, rs)))
  {
    if rs != [] {
      var codes := AllResidualCodes(node, rs);
      assert codes[1..] == ResidualCodes(rs[1..], rs[0]);
      IntRoundTrip(rs[0] - node);
      WrapSigned(codes[0]);
      TailGaps(rs[1..], rs[0], Ints(codes)[1..]);
    }
  }

  lemma {:induction false} NextResidual(rs: Links, prev: int, codes: seq<int>, i: nat)
    requires i < |codes| && Gaps(rs, prev, codes[i..])
    ensures rs != [] && prev + codes[i] + 1 == rs[0] && Gaps(rs[1..], rs[0], codes[i + 1..]) && rs == [rs[0]] + rs[1..]
  {
    assert codes[i..][1..] == codes[i + 1..];
  }

  method DecodeResiduals(node: nat, residuals: seq<int>, ghost rs: Links) returns (out: Links)
    requires Gaps(rs, node - 1, residuals)
    ensures out == rs
  {
    out := [];
    var residual := node - 1;
    ghost var todo := rs;
    assert residuals[0..] == residuals && [] + rs == rs;
    hide Gaps;
    for i := 0 to |residuals|
      invariant Gaps(todo, residual, residuals[i..]) && out + todo == rs
    {
      NextResidual(todo, residual, residuals, i);
      residual := residual + residuals[i] + 1;
      Regroup(out, [residual], todo[1..]);
      out := out + [residual];
      todo := todo[1..];
    }
    NoResiduals(todo, residual, residuals);
    assert out + [] == out;
  }

  lemma NoResiduals(rs: Links, prev: int, codes: seq<int>)
    requires Gaps(rs, prev, codes[|codes|..])
    ensures rs == []
  {
  }

  /** The element at `i` of a sorted run is the least of what is left of it. */
  lemma NextLeast(s: Links, i: nat)
    requires i < |s| && Sorted(s)
    ensures AllAtLeast(s[i..], s[i]) && AllAtLeast(s[i + 1..], s[i]) && s[..i + 1] == s[..i] + [s[i]]
  {
  }

  /** What a merge has put out: everything before the two positions, in order, and nothing
      above what is left. */
  ghost predicate Merging(a: Links, b: Links, i: nat, j: nat, r: Links) {
    && i <= |a| && j <= |b| && Sorted(r) && multiset(r) == multiset(a[..i]) + multiset(b[..j])
    && (r != [] ==> AllAtLeast(a[i..], r[|r| - 1]) && AllAtLeast(b[j..], r[|r| - 1]))
  }

  lemma MergeLeft(a: Links, b: Links, i: nat, j: nat, r: Links)
    requires Sorted(a) && Sorted(b) && Merging(a, b, i, j, r) && i < |a|
    requires j < |b| ==> a[i] <= b[j]
    ensures Merging(a, b, i + 1, j, r + [a[i]])
  {
    NextLeast(a, i);
    assert a[i..][0] == a[i];
    SortedAfter(r, [a[i]]);
    if j < |b| {
      NextLeast(b, j);
    }
  }

  lemma MergingSwap(a: Links, b: Links, i: nat, j: nat, r: Links)
    requires Merging(a, b, i, j, r)
    ensures Merging(b, a, j, i, r)
  {
  }

  lemma MergeStarts(a: Links, b: Links)
    ensures Merging(a, b, 0, 0, [])
  {
  }

  lemma MergeEnds(links: Links, mid: nat, r: Links)
    requires mid <= |links| && Merging(links[..mid], links[mid..], mid, |links| - mid, r)
    ensures Sorted(r) && multiset(r) == multiset(links)
  {
    var a, b := links[..mid], links[mid..];
    assert a[..|a|] == a && b[..|b|] == b && a + b == links;
  }

  /** std::inplace_merge of the sorted runs [0, mid) and [mid, end). */
  method InplaceMerge(links: Links, mid: nat) returns (r: Links)
    requires mid <= |links| && Sorted(links[..mid]) && Sorted(links[mid..])
    ensures Sorted(r) && multiset(r) == multiset(links)
  {
    hide Merging, Sorted;
    ghost var a, b := links[..mid], links[mid..];
    MergeStarts(a, b);
    r := [];
    var i, j := 0, 0;
    while i < mid || mid + j < |links|
      invariant i <= mid <= mid + j <= |links| && Merging(a, b, i, j, r)
      decreases mid - i + |links| - j
    {
      if mid + j == |links| || (i < mid && links[i] <= links[mid + j]) {
        MergeLeft(a, b, i, j, r);
        r := r + [links[i]];
        i := i + 1;
      } else {
        MergingSwap(a, b, i, j, r);
        MergeLeft(b, a, j, i, r);
        r := r + [links[mid + j]];
        j := j + 1;
        MergingSwap(b, a, j, i, r);
      }
    }
    MergeEnds(links, mid, r);
  }

  // ---------------------------------------------------------------- runs of code words

  method NextGamma(r: BitReader.BitReader, ghost x: nat, ghost tail: seq<Bit>) returns (v: nat)
    requires r.Valid() && r.view == Stream(GammaCode(x) + tail, false) && x + 1 < WORD
    modifies r, r.buf
    ensures r.Valid() && r.view == Stream(tail, false) && v == x
  {
    hide *;
    GammaRoundTrip(x, tail);
    v := r.ReadSGamma();
  }

  method NextZeta(r: BitReader.BitReader, k: nat, ghost x: nat, ghost tail: seq<Bit>) returns (v: nat)
    requires k >= 1 && r.Valid() && r.view == Stream(ZetaCode(x, k) + tail, false) && x + 1 < WORD
    modifies r, r.buf
    ensures r.Valid() && r.view == Stream(tail, false) && v == x
  {
    hide *;
    ZetaRoundTrip(x, k, tail);
    v := r.ReadZeta(k);
  }

  lemma {:induction false} PairsAt(xs: seq<(nat, nat)>, i: nat, tail: seq<Bit>)
    requires i < |xs|
    ensures PairsThen(xs[i..], tail) == GammaCode(xs[i].0) + (GammaCode(xs[i].1) + PairsThen(xs[i + 1..], tail))
  {
    assert xs[i..][1..] == xs[i + 1..];
  }

  lemma {:induction false} GammasAt(xs: seq<nat>, i: nat, tail: seq<Bit>)
    requires i < |xs|
    ensures GammasThen(xs[i..], tail) == GammaCode(xs[i]) + GammasThen(xs[i + 1..], tail)
  {
    assert xs[i..][1..] == xs[i + 1..];
  }

  lemma {:induction false} ZetasAt(k: nat, xs: seq<nat>, i: nat, tail: seq<Bit>)
    requires i < |xs| && k >= 1
    ensures ZetasThen(k, xs[i..], tail) == ZetaCode(xs[i], k) + ZetasThen(k, xs[i + 1..], tail)
  {
    assert xs[i..][1..] == xs[i + 1..];
  }

  lemma {:induction false} NoneLeft(k: nat, tail: seq<Bit>)
    requires k >= 1
    ensures GammasThen([], tail) == tail && PairsThen([], tail) == tail && ZetasThen(k, [], tail) == tail
  {
  }

  method ReadGammas(r: BitReader.BitReader, n: nat, ghost xs: seq<nat>, ghost tail: seq<Bit>) returns (vs: seq<nat>)
    requires r.Valid() && r.view == Stream(GammasThen(xs, tail), false)
    requires n == |xs| && forall i :: 0 <= i < n ==> xs[i] + 1 < WORD
    modifies r, r.buf
    ensures r.Valid() && r.view == Stream(tail, false) && vs == xs
  {
    hide *;
    assert xs[0..] == xs;
    vs := [];
    for i := 0 to n
      invariant r.Valid() && r.view == Stream(GammasThen(xs[i..], tail), false) && vs == xs[..i]
    {
      GammasAt(xs, i, tail);
      var v := NextGamma(r, xs[i], GammasThen(xs[i + 1..], tail));
      vs := vs + [v];
    }
    assert xs[n..] == [];
    NoneLeft(1, tail);
  }

  method ReadPairs(r: BitReader.BitReader, n: nat, ghost xs: seq<(nat, nat)>, ghost tail: seq<Bit>)
    returns (vs: seq<(nat, nat)>)
    requires r.Valid() && r.view == Stream(PairsThen(xs, tail), false)
    requires n == |xs| && forall i :: 0 <= i < n ==> xs[i].0 + 1 < WORD && xs[i].1 + 1 < WORD
    modifies r, r.buf
    ensures r.Valid() && r.view == Stream(tail, false) && vs == xs
  {
    hide *;
    assert xs[0..] == xs;
    vs := [];
    for i := 0 to n
      invariant r.Valid() && r.view == Stream(PairsThen(xs[i..], tail), false) && vs == xs[..i]
    {
      ghost var more := PairsThen(xs[i + 1..], tail);
      PairsAt(xs, i, tail);
      var left := NextGamma(r, xs[i].0, GammaCode(xs[i].1) + more);
      var len := NextGamma(r, xs[i].1, more);
      vs := vs + [(left, len)];
    }
    assert xs[n..] == [];
    NoneLeft(1, tail);
  }

  method ReadZetas(r: BitReader.BitReader, k: nat, n: nat, ghost xs: seq<nat>, ghost tail: seq<Bit>)
    returns (vs: seq<nat>)
    requires k >= 1 && r.Valid() && r.view == Stream(ZetasThen(k, xs, tail), false)
    requires n == |xs| && forall i :: 0 <= i < n ==> xs[i] + 1 < WORD
    modifies r, r.buf
    ensures r.Valid() && r.view == Stream(tail, false) && vs == xs
  {
    hide *;
    assert xs[0..] == xs;
    vs := [];
    for i := 0 to n
      invariant r.Valid() && r.view == Stream(ZetasThen(k, xs[i..], tail), false) && vs == xs[..i]
    {
      ZetasAt(k, xs, i, tail);
      var v := NextZeta(r, k, xs[i], ZetasThen(k, xs[i + 1..], tail));
      vs := vs + [v];
    }
    assert xs[n..] == [];
    NoneLeft(k, tail);
  }

  /** The reference and its block list. */
  method ReadReference(
    r: BitReader.BitReader, cfg: Config, ghost lists: seq<Links>, ghost c: NodeCode, ghost tail: seq<Bit>)
    returns (reference: nat, copyList: seq<nat>)
    requires ReferenceOk(cfg, lists, c) && AllShort(lists)
    requires r.Valid() && r.view == Stream(ReferenceThen(cfg, c, tail), false)
    modifies r, r.buf
    ensures r.Valid() && r.view == Stream(tail, false)
    ensures reference == c.reference && copyList == c.blocks
  {
    reference, copyList := 0, [];
    if cfg.windowSize != 0 {
      ghost var more :=
        if c.reference == 0 then tail else GammaCode(|c.blocks|) + GammasThen(BlockCodes(c.blocks), tail);
      UnaryRoundTrip(c.reference, more);
      reference := r.ReadUnary();
      if reference != 0 {
        BlocksFit(c.blocks);
        var nBlocks := NextGamma(r, |c.blocks|, GammasThen(BlockCodes(c.blocks), tail));
        copyList := ReadGammas(r, nBlocks, BlockCodes(c.blocks), tail);
        copyList := IncrementBlocks(copyList, c.blocks);
      }
    }
  }

  ghost predicate AllShort(lists: seq<Links>) {
    forall i :: 0 <= i < |lists| ==> |lists[i]| < LIMIT && Sorted(lists[i])
  }

  lemma {:induction false} BlocksFit(blocks: seq<nat>)
    ensures forall i :: 0 <= i < |blocks| ==> blocks[i] <= Sum(blocks)
  {
    if blocks != [] {
      BlocksFit(blocks[1..]);
      forall i | 0 <= i < |blocks| ensures blocks[i] <= Sum(blocks) {
        if i > 0 {
          assert blocks[i] == blocks[1..][i - 1];
        }
      }
    }
  }

  /** The part of a node after the copied successors: intervals and residuals, merged in. */
  method ReadExtra(r: BitReader.BitReader, cfg: Config, node: nat, degree: nat, copied: Links,
                   ghost c: NodeCode, ghost tail: seq<Bit>) returns (links: Links)
    requires cfg.zetaK >= 1 && node < LIMIT && ExtraOk(cfg, c) && Sorted(copied)
    requires degree == |copied| + |Expanded(c.intervals)| + |c.residuals|
    requires r.Valid()
    requires r.view
          == Stream(IntervalsThen(cfg, node, c, ZetasThen(cfg.zetaK, AllResidualCodes(node, c.residuals), tail)), false)
    modifies r, r.buf
    ensures r.Valid() && r.view == Stream(tail, false)
    ensures Sorted(links)
    ensures multiset(links) == multiset(copied) + multiset(Expanded(c.intervals)) + multiset(c.residuals)
  {
    var runs := ReadIntervals(r, cfg, node, c, ZetasThen(cfg.zetaK, AllResidualCodes(node, c.residuals), tail));
    ExpandedSorted(cfg, c.intervals, -1);
    links := MergeParts(copied, runs);
    assert |links| == |multiset(links)|;
    var nResiduals := degree - |links|;
    AllGaps(node, c.residuals);
    var codes := ReadZetas(r, cfg.zetaK, nResiduals, AllResidualCodes(node, c.residuals), tail);
    var residuals := DecodeResiduals(node, Ints(codes), c.residuals);
    ClimbingSorted(c.residuals, -1);
    links := MergeParts(links, residuals);
  }

  /** Appends a sorted part and merges it in, unless one of the two is empty. */
  method MergeParts(first: Links, second: Links) returns (links: Links)
    requires Sorted(first) && Sorted(second)
    ensures Sorted(links) && multiset(links) == multiset(first) + multiset(second)
  {
    links := first + second;
    if first != [] && second != [] {
      assert links[..|first|] == first && links[|first|..] == second;
      links := InplaceMerge(links, |first|);
    } else {
      assert links == if first == [] then second else first;
    }
  }

  method ReadIntervals(r: BitReader.BitReader, cfg: Config, node: nat, ghost c: NodeCode, ghost tail: seq<Bit>)
    returns (runs: Links)
    requires node < LIMIT && ExtraOk(cfg, c)
    requires r.Valid() && r.view == Stream(IntervalsThen(cfg, node, c, tail), false)
    modifies r, r.buf
    ensures r.Valid() && r.view == Stream(tail, false)
    ensures runs == Expanded(c.intervals)
  {
    runs := [];
    if cfg.minIntervalLength != 0 {
      ghost var written := AllIntervalCodes(cfg, node, c.intervals);
      AllDeltas(cfg, node, c.intervals);
      var nIntervals := NextGamma(r, |c.intervals|, PairsThen(written, tail));
      var codes := ReadPairs(r, nIntervals, written, tail);
      runs := DecodeIntervals(cfg, node, FirstSigned(codes), c.intervals);
    }
  }
}
