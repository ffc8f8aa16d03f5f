/** The layout of a successor list in a BVGraph stream: a part copied from an earlier list in
    alternating blocks, runs of consecutive numbers, and residuals; and the bits that spell it. */
module SuccessorCodes {
  import opened Collections
  import opened BitCodes

  type Links = seq<int>

  /** Node numbers and list lengths stay below this: they are C ints. */
  const LIMIT: nat := 0x8000_0000

  datatype Config = Config(windowSize: nat, minIntervalLength: nat, zetaK: nat)

  datatype Interval = Interval(left: nat, len: nat)

  /** How one node's successors are written. */
  datatype NodeCode = NodeCode(links: Links, reference: nat, blocks: seq<nat>,
                               intervals: seq<Interval>, residuals: Links)

  ghost predicate Sorted(s: Links) { forall i, j :: 0 <= i < j < |s| ==> s[i] <= s[j] }

  // ---------------------------------------------------------------- the three parts

  function Sum(blocks: seq<nat>): nat { if blocks == [] then 0 else blocks[0] + Sum(blocks[1..]) }

  /** The blocks cut `ref` into pieces that are copied and skipped in turn; what is left after
      the last block goes on alternating. */
  function Copied(ref: Links, blocks: seq<nat>, copying: bool): (r: Links)
    requires Sum(blocks) <= |ref|
    ensures |r| <= |ref|
    decreases |blocks|
  {
    if blocks == [] then if copying then ref else []
    else (if copying then ref[..blocks[0]] else []) + Copied(ref[blocks[0]..], blocks[1..], !copying)
  }

  function Range(left: int, len: nat): (r: Links)
    ensures |r| == len && forall i :: 0 <= i < len ==> r[i] == left + i
  {
    seq(len, (i: nat) => left + i)
  }

  function Expanded(iv: seq<Interval>): Links {
    if iv == [] then [] else Range(iv[0].left, iv[0].len) + Expanded(iv[1..])
  }

  /** The intervals ascend from above `prev`, with a gap between neighbours. */
  ghost predicate Spaced(cfg: Config, iv: seq<Interval>, prev: int) {
    iv == [] ||
    (prev < iv[0].left && cfg.minIntervalLength <= iv[0].len && iv[0].left + iv[0].len <= LIMIT
     && Spaced(cfg, iv[1..], iv[0].left + iv[0].len))
  }

  /** The residuals ascend strictly from above `prev`. */
  ghost predicate Climbing(rs: Links, prev: int) {
    rs == [] || (prev < rs[0] < LIMIT && Climbing(rs[1..], rs[0]))
  }

  ghost predicate ReferenceOk(cfg: Config, lists: seq<Links>, c: NodeCode) {
    && c.reference <= cfg.windowSize && c.reference <= |lists|
    && (c.reference == 0 ==> c.blocks == [])
    && (c.reference > 0 ==> |c.blocks| < LIMIT && Sum(c.blocks) <= |lists[|lists| - c.reference]|)
    && forall i :: 1 <= i < |c.blocks| ==> c.blocks[i] >= 1
  }

  function CopiedPart(cfg: Config, lists: seq<Links>, c: NodeCode): Links
    requires ReferenceOk(cfg, lists, c)
  {
    if c.reference == 0 then [] else Copied(lists[|lists| - c.reference], c.blocks, true)
  }

  ghost predicate ExtraOk(cfg: Config, c: NodeCode) {
    && |c.intervals| < LIMIT
    && (cfg.minIntervalLength == 0 ==> c.intervals == [])
    && Spaced(cfg, c.intervals, -1) && Climbing(c.residuals, -1)
  }

  /** `c` describes the ascending list of its three parts, given the earlier lists. */
  ghost predicate CodeOk(cfg: Config, lists: seq<Links>, c: NodeCode) {
    && cfg.zetaK >= 1 && |lists| < LIMIT && |c.links| < LIMIT
    && ReferenceOk(cfg, lists, c) && ExtraOk(cfg, c)
    && Sorted(c.links)
    && multiset(c.links)
       == multiset(CopiedPart(cfg, lists, c)) + multiset(Expanded(c.intervals)) + multiset(c.residuals)
  }

  ghost predicate GraphOk(cfg: Config, lists: seq<Links>, codes: seq<NodeCode>)
    decreases |codes|
  {
    codes == [] || (CodeOk(cfg, lists, codes[0]) && GraphOk(cfg, lists + [codes[0].links], codes[1..]))
  }

  // ---------------------------------------------------------------- the numbers written

  /** Every block but the first is written less one. */
  function BlockCodes(blocks: seq<nat>): (r: seq<nat>)
    requires forall i :: 1 <= i < |blocks| ==> blocks[i] >= 1
    ensures |r| == |blocks|
    ensures forall i :: 0 <= i < |blocks| ==> r[i] == if i == 0 then blocks[i] else blocks[i] - 1
  {
    seq(|blocks|, (i: nat) requires i < |blocks| => if i == 0 then blocks[i] else blocks[i] - 1)
  }

  /** Lefts are relative to the end of the interval before, lengths to the minimum. */
  function IntervalCodes(cfg: Config, iv: seq<Interval>, prev: int): (r: seq<(nat, nat)>)
    requires Spaced(cfg, iv, prev)
    ensures |r| == |iv|
  {
    if iv == [] then []
    else [(iv[0].left - prev - 1, iv[0].len - cfg.minIntervalLength)]
         + IntervalCodes(cfg, iv[1..], iv[0].left + iv[0].len)
  }

  /** The first left is relative to the node and may be negative. */
  function AllIntervalCodes(cfg: Config, node: nat, iv: seq<Interval>): (r: seq<(nat, nat)>)
    requires Spaced(cfg, iv, -1)
    ensures |r| == |iv|
  {
    if iv == [] then []
    else [(IntToNat(iv[0].left - node), iv[0].len - cfg.minIntervalLength)]
         + IntervalCodes(cfg, iv[1..], iv[0].left + iv[0].len)
  }

  function ResidualCodes(rs: Links, prev: int): (r: seq<nat>)
    requires Climbing(rs, prev)
    ensures |r| == |rs|
  {
    if rs == [] then [] else [rs[0] - prev - 1] + ResidualCodes(rs[1..], rs[0])
  }

  function AllResidualCodes(node: nat, rs: Links): (r: seq<nat>)
    requires Climbing(rs, -1)
    ensures |r| == |rs|
  {
    if rs == [] then [] else [IntToNat(rs[0] - node)] + ResidualCodes(rs[1..], rs[0])
  }

  // ---------------------------------------------------------------- the bits written

  function GammasThen(xs: seq<nat>, tail: seq<Bit>): seq<Bit> {
    if xs == [] then tail else GammaCode(xs[0]) + GammasThen(xs[1..], tail)
  }

  function PairsThen(xs: seq<(nat, nat)>, tail: seq<Bit>): seq<Bit> {
    if xs == [] then tail else GammaCode(xs[0].0) + (GammaCode(xs[0].1) + PairsThen(xs[1..], tail))
  }

  function ZetasThen(k: nat, xs: seq<nat>, tail: seq<Bit>): seq<Bit>
    requires k >= 1
  {
    if xs == [] then tail else ZetaCode(xs[0], k) + ZetasThen(k, xs[1..], tail)
  }

  function ReferenceThen(cfg: Config, c: NodeCode, tail: seq<Bit>): seq<Bit>
    requires forall i :: 1 <= i < |c.blocks| ==> c.blocks[i] >= 1
  {
    if cfg.windowSize == 0 then tail
    else UnaryCode(c.reference) +
         if c.reference == 0 then tail else GammaCode(|c.blocks|) + GammasThen(BlockCodes(c.blocks), tail)
  }

  function IntervalsThen(cfg: Config, node: nat, c: NodeCode, tail: seq<Bit>): seq<Bit>
    requires ExtraOk(cfg, c)
  {
    if cfg.minIntervalLength == 0 then tail
    else GammaCode(|c.intervals|) + PairsThen(AllIntervalCodes(cfg, node, c.intervals), tail)
  }

  function ExtraThen(cfg: Config, node: nat, c: NodeCode, tail: seq<Bit>): seq<Bit>
    requires ExtraOk(cfg, c) && cfg.zetaK >= 1
  {
    if c.intervals == [] && c.residuals == [] then tail
    else IntervalsThen(cfg, node, c, ZetasThen(cfg.zetaK, AllResidualCodes(node, c.residuals), tail))
  }

  function NodeThen(cfg: Config, lists: seq<Links>, c: NodeCode, tail: seq<Bit>): seq<Bit>
    requires CodeOk(cfg, lists, c)
  {
    GammaCode(|c.links|) +
    if c.links == [] then tail else ReferenceThen(cfg, c, ExtraThen(cfg, |lists|, c, tail))
  }

  /** A whole graph, and the padding after it. */
  function GraphBits(cfg: Config, lists: seq<Links>, codes: seq<NodeCode>, pad: nat): seq<Bit>
    requires GraphOk(cfg, lists, codes)
    decreases |codes|
  {
    if codes == [] then Zeros(pad)
    else NodeThen(cfg, lists, codes[0], GraphBits(cfg, lists + [codes[0].links], codes[1..], pad))
  }

  // ---------------------------------------------------------------- every graph has a code

  /** The code without reference or intervals. */
  function PlainCode(links: Links): NodeCode { NodeCode(links, 0, [], [], links) }

  function PlainCodes(graph: seq<Links>): (r: seq<NodeCode>)
    ensures |r| == |graph| && forall i :: 0 <= i < |r| ==> r[i] == PlainCode(graph[i])
  {
    seq(|graph|, (i: nat) requires i < |graph| => PlainCode(graph[i]))
  }

  lemma {:induction false} ClimbingSorted(rs: Links, prev: int)
    requires Climbing(rs, prev)
    ensures Sorted(rs) && forall i :: 0 <= i < |rs| ==> prev < rs[i] < LIMIT
  {
    if rs != [] {
      ClimbingSorted(rs[1..], rs[0]);
      var t := rs[1..];
      forall i, j | 0 <= i < j < |rs| ensures rs[i] <= rs[j] {
        assert rs[j] == t[j - 1];
        if i > 0 {
          assert rs[i] == t[i - 1];
        }
      }
      forall i | 0 <= i < |rs| ensures prev < rs[i] < LIMIT {
        if i > 0 {
          assert rs[i] == t[i - 1];
        }
      }
    }
  }

  /** Strictly ascending lists of node numbers can be written, whatever the parameters. */
  lemma {:induction false} EveryGraphHasACode(cfg: Config, lists: seq<Links>, graph: seq<Links>)
    requires cfg.zetaK >= 1 && |lists| + |graph| <= LIMIT
    requires forall i :: 0 <= i < |graph| ==> |graph[i]| < LIMIT && Climbing(graph[i], -1)
    ensures GraphOk(cfg, lists, PlainCodes(graph))
    decreases |graph|
  {
    if graph != [] {
      var c := PlainCode(graph[0]);
      ClimbingSorted(graph[0], -1);
      assert CodeOk(cfg, lists, c);
      EveryGraphHasACode(cfg, lists + [graph[0]], graph[1..]);
      assert PlainCodes(graph)[1..] == PlainCodes(graph[1..]);
    }
  }

  // ---------------------------------------------------------------- order

  lemma SortedConcat(a: Links, b: Links)
    requires Sorted(a) && Sorted(b)
    requires forall i, j :: 0 <= i < |a| && 0 <= j < |b| ==> a[i] <= b[j]
    ensures Sorted(a + b)
  {
  }

  ghost predicate AllAtLeast(s: Links, x: int) { forall i :: 0 <= i < |s| ==> x <= s[i] }

  lemma SortedAfter(a: Links, b: Links)
    requires Sorted(a) && Sorted(b)
    requires a != [] ==> AllAtLeast(b, a[|a| - 1])
    ensures Sorted(a + b)
  {
    if a != [] {
      forall i, j | 0 <= i < |a| && 0 <= j < |b| ensures a[i] <= b[j] {
        assert a[i] <= a[|a| - 1] <= b[j];
      }
      SortedConcat(a, b);
    } else {
      assert a + b == b;
    }
  }

  /** The copied part is sorted when the list it is taken from is, and lies above what that
      list lies above. */
  lemma {:induction false} CopiedSorted(ref: Links, blocks: seq<nat>, copying: bool, low: int)
    requires Sum(blocks) <= |ref| && Sorted(ref) && AllAtLeast(ref, low)
    ensures Sorted(Copied(ref, blocks, copying)) && AllAtLeast(Copied(ref, blocks, copying), low)
    decreases |blocks|
  {
    if blocks != [] {
      var b := blocks[0];
      var first, rest := ref[..b], ref[b..];
      var more := Copied(rest, blocks[1..], !copying);
      var low' := if copying && b > 0 then ref[b - 1] else low;
      CutSorted(ref, b, low);
      CopiedSorted(rest, blocks[1..], !copying, low');
      if copying {
        SortedAfter(first, more);
        assert Copied(ref, blocks, copying) == first + more;
      } else {
        assert Copied(ref, blocks, copying) == more;
      }
    }
  }

  lemma CutSorted(ref: Links, b: nat, low: int)
    requires b <= |ref| && Sorted(ref) && AllAtLeast(ref, low)
    ensures Sorted(ref[..b]) && Sorted(ref[b..]) && AllAtLeast(ref[..b], low) && AllAtLeast(ref[b..], low)
    ensures b > 0 ==> low <= ref[b - 1] && AllAtLeast(ref[b..], ref[b - 1])
  {
  }

  lemma {:induction false} ExpandedSorted(cfg: Config, iv: seq<Interval>, prev: int)
    requires Spaced(cfg, iv, prev)
    ensures Sorted(Expanded(iv)) && forall i :: 0 <= i < |Expanded(iv)| ==> prev < Expanded(iv)[i] < LIMIT
  {
    if iv != [] {
      ExpandedSorted(cfg, iv[1..], iv[0].left + iv[0].len);
      SortedConcat(Range(iv[0].left, iv[0].len), Expanded(iv[1..]));
    }
  }

  lemma GreatestLast(a: Links, b: Links)
    requires Sorted(a) && a != [] && b != [] && multiset(a) == multiset(b)
    ensures b[|b| - 1] <= a[|a| - 1]
  {
    assert b[|b| - 1] in multiset(b);
    assert b[|b| - 1] in a;
  }

  /** The order and the elements determine a list: the greatest comes last, and so on down. */
  lemma {:induction false} OneSortedList(a: Links, b: Links)
    requires Sorted(a) && Sorted(b) && multiset(a) == multiset(b)
    ensures a == b
    decreases |a|
  {
    hide Sorted;
    var n := |multiset(a)|;
    assert |a| == n == |b|;
    if n > 0 {
      GreatestLast(a, b);
      GreatestLast(b, a);
      SplitLast(a, n - 1);
      SplitLast(b, n - 1);
      Cancel(multiset(a[..n - 1]), multiset(b[..n - 1]), a[n - 1]);
      OneSortedList(a[..n - 1], b[..n - 1]);
    }
  }

  lemma SplitLast(a: Links, m: nat)
    requires Sorted(a) && |a| == m + 1
    ensures Sorted(a[..m]) && a == a[..m] + [a[m]] && multiset(a[..m]) + multiset{a[m]} == multiset(a)
  {
    WithoutElements(a, m);
    assert Without(a, m) == a[..m];
  }
}
