/** Reader::readNode: one successor list per call, decoded against a ring of the lists read
    last. */
module GraphReader {
  import opened Collections
  import opened BitCodes
  import opened SuccessorCodes
  import opened SuccessorDecoder
  import BitReader

  // ---------------------------------------------------------------- the window

  datatype Node = Node(node: nat, links: Links)

  /** Slot j mod (W + 1) of the window holds node j, for the W + 1 nodes read last. */
  ghost predicate Ring(window: seq<Node>, lists: seq<Links>) {
    |window| > 0 &&
    forall j: nat :: j < |lists| <= j + |window| ==> window[j % |window|] == Node(j, lists[j])
  }

  lemma SlotsDiffer(a: nat, b: nat, m: nat)
    requires a < b < a + m
    ensures a % m != b % m
  {
    var q, p := b / m, a / m;
    if a % m == b % m {
      assert b - a == m * (q - p) by {
        assert a == m * p + a % m && b == m * q + b % m;
      }
      assert q - p <= 0 || q - p >= 1;
      Multiple(m, q - p);
    }
  }

  lemma Multiple(m: nat, d: int)
    ensures d >= 1 ==> m * d >= m
    ensures d <= 0 ==> m * d <= 0
  {
  }

  /** Every node that may be referred to is found in its slot. */
  ghost predicate Reachable(window: seq<Node>, lists: seq<Links>) {
    |window| > 0 &&
    forall j: nat :: j < |lists| < j + |window| ==> window[j % |window|] == Node(j, lists[j])
  }

  /** The slot being filled is not that of any node it may refer to, so a reference finds its
      list even after that slot is overwritten. */
  lemma RingRead(window: seq<Node>, lists: seq<Links>, x: Node)
    requires Ring(window, lists)
    ensures Reachable(window[|lists| % |window| := x], lists)
  {
    forall j: nat | j < |lists| < j + |window|
      ensures window[|lists| % |window| := x][j % |window|] == Node(j, lists[j])
    {
      SlotsDiffer(j, |lists|, |window|);
    }
  }

  lemma RingWrite(window: seq<Node>, lists: seq<Links>, links: Links)
    requires Ring(window, lists)
    ensures Ring(window[|lists| % |window| := Node(|lists|, links)], lists + [links])
  {
    var n, m, lists' := |lists|, |window|, lists + [links];
    var window' := window[n % m := Node(n, links)];
    forall j: nat | j < |lists'| <= j + m ensures window'[j % m] == Node(j, lists'[j]) {
      if j < n {
        SlotsDiffer(j, n, m);
      }
    }
  }

  /** A code with successors beyond the copied ones has an extra part, and only such a code. */
  lemma {:induction false} PartSizes(cfg: Config, lists: seq<Links>, c: NodeCode)
    requires CodeOk(cfg, lists, c)
    ensures |c.links| == |CopiedPart(cfg, lists, c)| + |Expanded(c.intervals)| + |c.residuals|
    ensures |CopiedPart(cfg, lists, c)| == |c.links| <==> c.intervals == [] && c.residuals == []
  {
    var a, b := CopiedPart(cfg, lists, c), Expanded(c.intervals);
    assert |multiset(c.links)| == |multiset(a)| + |multiset(b)| + |multiset(c.residuals)|;
    if c.intervals != [] {
      assert |b| >= c.intervals[0].len > 0;
    }
  }

  /** Only padding is left: the next degree is not there. */
  lemma {:induction false} PaddingEnds(n: nat)
    ensures ReadUnary(Stream(Zeros(n), false)) == (n + 1, Stream([], true))
  {
    if n == 0 {
      var s := Stream([], true);
      assert ReadUnary(s) == (0, s);
    } else {
      assert Zeros(n)[0] == 0 && Zeros(n)[1..] == Zeros(n - 1);
      PaddingEnds(n - 1);
    }
  }

  lemma {:induction false} EofStays(s: Stream, w: nat, res: nat)
    requires s.eof && s.rest == []
    ensures ReadFixed(s, w, res).1 == s && ReadGamma(s).1.eof
    decreases w
  {
    if w > 0 {
      EofStays(ReadBit(s).1, w - 1, Push(res, 0));
    }
  }

  /** What the reader has delivered, and what its stream still holds. */
  datatype Progress = Progress(lists: seq<Links>, pending: seq<NodeCode>, pad: nat)

  /** The stream spells the codes still pending, and the window the lists read last. */
  ghost predicate InStep(cfg: Config, p: Progress, node: nat, window: seq<Node>, s: Stream) {
    && node == |p.lists| && !s.eof && Ring(window, p.lists) && AllShort(p.lists)
    && GraphOk(cfg, p.lists, p.pending) && s.rest == GraphBits(cfg, p.lists, p.pending, p.pad)
  }

  function Advance(p: Progress): Progress
    requires p.pending != []
  {
    Progress(p.lists + [p.pending[0].links], p.pending[1..], p.pad)
  }

  /** The bits of the nodes after the next one. */
  function LaterBits(cfg: Config, p: Progress): seq<Bit>
    requires p.pending != [] && GraphOk(cfg, Advance(p).lists, Advance(p).pending)
  {
    GraphBits(cfg, Advance(p).lists, Advance(p).pending, p.pad)
  }

  lemma {:induction false} NextCode(cfg: Config, p: Progress, node: nat, window: seq<Node>, s: Stream)
    requires InStep(cfg, p, node, window, s) && p.pending != []
    ensures CodeOk(cfg, p.lists, p.pending[0])
    ensures GraphOk(cfg, Advance(p).lists, Advance(p).pending)
    ensures s == Stream(NodeThen(cfg, p.lists, p.pending[0], LaterBits(cfg, p)), false)
  {
  }

  lemma {:induction false} InStepNext(cfg: Config, p: Progress, node: nat, window: seq<Node>, s: Stream)
    requires InStep(cfg, p, node, window, s) && p.pending != []
    requires GraphOk(cfg, Advance(p).lists, Advance(p).pending)
    ensures var window' := window[node % |window| := Node(node, p.pending[0].links)];
            InStep(cfg, Advance(p), node + 1, window', Stream(LaterBits(cfg, p), false))
  {
    hide GraphBits, Ring, AllShort;
    RingWrite(window, p.lists, p.pending[0].links);
    AllShortPush(p.lists, p.pending[0].links);
  }

  lemma AllShortPush(lists: seq<Links>, links: Links)
    requires AllShort(lists) && |links| < LIMIT && Sorted(links)
    ensures AllShort(lists + [links])
  {
  }

  lemma {:induction false} AtPadding(cfg: Config, p: Progress, node: nat, window: seq<Node>, s: Stream)
    requires InStep(cfg, p, node, window, s) && p.pending == []
    ensures ReadGamma(s).1.eof
  {
    PaddingEnds(p.pad);
    var (n, s1) := ReadUnary(s);
    EofStays(s1, n, 0);
  }

  lemma {:induction false} CopiedPartSorted(cfg: Config, lists: seq<Links>, c: NodeCode)
    requires ReferenceOk(cfg, lists, c) && AllShort(lists)
    ensures Sorted(CopiedPart(cfg, lists, c))
  {
    if c.reference > 0 {
      var ref := lists[|lists| - c.reference];
      CopiedSorted(ref, c.blocks, true, if ref == [] then 0 else ref[0]);
    }
  }

  /** The bits of a node after its degree. */
  function AfterDegree(cfg: Config, lists: seq<Links>, c: NodeCode, tail: seq<Bit>): seq<Bit>
    requires CodeOk(cfg, lists, c)
  {
    if c.links == [] then tail else ReferenceThen(cfg, c, ExtraThen(cfg, |lists|, c, tail))
  }

  method ReadDegree(
    r: BitReader.BitReader, ghost cfg: Config, ghost p: Progress, ghost node: nat, ghost window: seq<Node>)
    returns (degree: nat)
    requires r.Valid() && (!r.eof ==> InStep(cfg, p, node, window, r.view))
    modifies r, r.buf
    ensures r.Valid() && (r.eof <==> old(r.eof) || p.pending == [])
    ensures !r.eof ==>
              && CodeOk(cfg, p.lists, p.pending[0]) && degree == |p.pending[0].links|
              && GraphOk(cfg, Advance(p).lists, Advance(p).pending)
              && r.view == Stream(AfterDegree(cfg, p.lists, p.pending[0], LaterBits(cfg, p)), false)
  {
    hide BitReader.BitReader.Valid, CodeOk, GraphBits, GraphOk, ReferenceThen, ExtraThen;
    if r.eof {
      PastEof(r.view);
    } else if p.pending == [] {
      AtPadding(cfg, p, node, window, r.view);
    } else {
      NextCode(cfg, p, node, window, r.view);
      ShortLinks(cfg, p.lists, p.pending[0]);
      GammaRoundTrip(|p.pending[0].links|, AfterDegree(cfg, p.lists, p.pending[0], LaterBits(cfg, p)));
    }
    degree := r.ReadSGamma();
  }

  lemma ShortLinks(cfg: Config, lists: seq<Links>, c: NodeCode)
    requires CodeOk(cfg, lists, c)
    ensures |c.links| < LIMIT && |lists| < LIMIT && cfg.zetaK >= 1 && ReferenceOk(cfg, lists, c) && ExtraOk(cfg, c)
  {
  }

  class Reader {
    const cfg: Config
    const r: BitReader.BitReader
    const window: array<Node>
    var node: nat

    ghost var progress: Progress

    ghost predicate Valid()
      reads this, r, r.buf, window
    {
      && r.Valid() && window.Length == cfg.windowSize + 1
      && (!r.eof ==> InStep(cfg, progress, node, window[..], r.view))
    }

    /** A reader at the start of a well-formed stream. */
    constructor (cfg: Config, bytes: seq<BitReader.Byte>, ghost codes: seq<NodeCode>, ghost pad: nat)
      requires GraphOk(cfg, [], codes) && BitReader.AllBits(bytes) == GraphBits(cfg, [], codes, pad)
      ensures Valid() && fresh(r) && fresh(r.buf) && fresh(window)
      ensures this.cfg == cfg && node == 0 && !r.eof && progress == Progress([], codes, pad)
    {
      this.cfg := cfg;
      r := new BitReader.BitReader(bytes);
      window := new Node[cfg.windowSize + 1](_ => Node(0, []));
      node := 0;
      progress := Progress([], codes, pad);
    }

    /** The successors of a node of non-zero degree: copied, interval and residual ones. */
    method ReadLinks(n: nat, degree: nat, ghost lists: seq<Links>, ghost c: NodeCode, ghost tail: seq<Bit>)
      returns (links: Links)
      requires r.Valid() && window.Length == cfg.windowSize + 1 && Reachable(window[..], lists)
      requires n == |lists| && AllShort(lists) && CodeOk(cfg, lists, c) && degree == |c.links|
      requires r.view == Stream(ReferenceThen(cfg, c, ExtraThen(cfg, n, c, tail)), false)
      modifies r, r.buf
      ensures r.Valid() && r.view == Stream(tail, false) && links == c.links
    {
      hide BitReader.BitReader.Valid, CodeOk, Sorted, ReferenceThen, AllShort;
      ShortLinks(cfg, lists, c);
      PartSizes(cfg, lists, c);
      CopiedPartSorted(cfg, lists, c);
      var reference, copyList := ReadReference(r, cfg, lists, c, ExtraThen(cfg, n, c, tail));
      links := [];
      if reference != 0 {
        var ref := window[(n - reference) % (cfg.windowSize + 1)].links;
        links := CopyBlocks(ref, copyList);
      }
      assert links == CopiedPart(cfg, lists, c);
      if |links| != degree {
        links := ReadExtra(r, cfg, n, degree, links, c, tail);
      } else {
        NoExtra(c);
      }
      SameList(cfg, lists, c, links);
    }

    /** The next node, or None at the end of the stream. What is returned is the ascending
        list of the copied, interval and residual successors, as many as the out-degree. */
    method ReadNode() returns (l: Option<Node>)
      requires Valid()
      modifies this, r, r.buf, window
      ensures Valid()
      ensures l == None <==> r.eof
      ensures r.eof <==> old(r.eof) || old(progress).pending == []
      ensures node == old(node) + 1
      ensures l != None ==>
                (var c := old(progress).pending[0];
                 && progress == Advance(old(progress))
                 && l == Some(Node(old(node), c.links))
                 && CodeOk(cfg, old(progress).lists, c))
    {
      hide BitReader.BitReader.Valid, CodeOk, InStep, GraphOk, GraphBits, Ring, AllShort;
      ghost var p, was := progress, window[..];
      ghost var s := r.view;
      var slot := node % (cfg.windowSize + 1);
      var n := node;
      window[slot] := Node(n, window[slot].links);
      node := node + 1;
      var degree := ReadDegree(r, cfg, p, n, was);
      if r.eof {
        return None;
      }
      ghost var tail := LaterBits(cfg, p);
      var links := [];
      if degree != 0 {
        Unpack(cfg, p, n, was, s, window[slot]);
        assert window[..] == was[slot := window[slot]];
        links := ReadLinks(n, degree, p.lists, p.pending[0], tail);
      }
      window[slot] := Node(n, links);
      InStepNext(cfg, p, n, was, s);
      assert window[..] == was[slot := Node(n, links)];
      progress := Advance(p);
      return Some(window[slot]);
    }
  }

  lemma Unpack(cfg: Config, p: Progress, node: nat, window: seq<Node>, s: Stream, x: Node)
    requires InStep(cfg, p, node, window, s)
    ensures node == |p.lists| && AllShort(p.lists) && Reachable(window[node % |window| := x], p.lists)
  {
    RingRead(window, p.lists, x);
  }

  lemma {:induction false} PastEof(s: Stream)
    requires s.eof && s.rest == []
    ensures ReadGamma(s).1.eof
  {
    assert ReadUnary(s) == (0, s);
  }

  lemma SameList(cfg: Config, lists: seq<Links>, c: NodeCode, links: Links)
    requires CodeOk(cfg, lists, c) && Sorted(links)
    requires multiset(links)
          == multiset(CopiedPart(cfg, lists, c)) + multiset(Expanded(c.intervals)) + multiset(c.residuals)
    ensures links == c.links
  {
    OneSortedList(links, c.links);
  }

  lemma NoExtra(c: NodeCode)
    requires c.intervals == [] && c.residuals == []
    ensures multiset(Expanded(c.intervals)) == multiset{} && multiset(c.residuals) == multiset{}
  {
  }

  // ---------------------------------------------------------------- whole graphs

  function LinksOf(codes: seq<NodeCode>): (r: seq<Links>)
    ensures |r| == |codes|
    ensures forall i :: 0 <= i < |r| ==> r[i] == codes[i].links
  {
    seq(|codes|, (i: nat) requires i < |codes| => codes[i].links)
  }

  /** Reading until there is no next node gives back every list, numbered in order. */
  method ReadGraph(cfg: Config, bytes: seq<BitReader.Byte>, ghost codes: seq<NodeCode>, ghost pad: nat)
    returns (graph: seq<Node>)
    requires GraphOk(cfg, [], codes) && BitReader.AllBits(bytes) == GraphBits(cfg, [], codes, pad)
    ensures |graph| == |codes|
    ensures forall i :: 0 <= i < |codes| ==> graph[i] == Node(i, codes[i].links)
  {
    hide GraphOk, GraphBits, BitReader.AllBits, InStep, CodeOk, BitReader.BitReader.Valid;
    var reader := new Reader(cfg, bytes, codes, pad);
    graph := [];
    var l := reader.ReadNode();
    ghost var i := 0;
    while l != None
      invariant reader.Valid() && fresh(reader) && fresh(reader.r) && fresh(reader.r.buf) && fresh(reader.window)
      invariant i <= |codes| && |graph| == i && forall j :: 0 <= j < i ==> graph[j] == Node(j, codes[j].links)
      invariant (l == None <==> i == |codes|) && (l == None <==> reader.r.eof)
      invariant l != None ==> l == Some(Node(i, codes[i].links)) && reader.progress.pending == codes[i + 1..]
      invariant !reader.r.eof ==> reader.node == i + 1
      decreases |codes| - i
    {
      graph := graph + [l.value];
      l := reader.ReadNode();
      i := i + 1;
    }
  }

  /** The number whose binary form is `bits`. */
  function Value(bits: seq<Bit>): (r: nat)
    ensures r < Pow2(|bits|)
  {
    if bits == [] then 0 else bits[0] * Pow2(|bits| - 1) + Value(bits[1..])
  }

  lemma {:induction false} BinaryOfValue(bits: seq<Bit>)
    ensures Binary(Value(bits), |bits|) == bits
  {
    if bits != [] {
      BinaryOfValue(bits[1..]);
    }
  }

  /** A bit string of whole bytes is the contents of a file. */
  lemma {:induction false} Packed(bits: seq<Bit>) returns (bytes: seq<BitReader.Byte>)
    requires |bits| % 8 == 0
    ensures BitReader.AllBits(bytes) == bits
    decreases |bits|
  {
    if bits == [] {
      bytes := [];
    } else {
      var b := Value(bits[..8]);
      var more := Packed(bits[8..]);
      BitReader.TopIsBinary(0);
      BinaryOfValue(bits[..8]);
      BitReader.TopIsBinary(b);
      bytes := [b] + more;
      assert bytes[1..] == more;
    }
  }

  lemma {:induction false} GammasLength(xs: seq<nat>, a: seq<Bit>, b: seq<Bit>)
    ensures |GammasThen(xs, b)| - |b| == |GammasThen(xs, a)| - |a|
  {
    if xs != [] {
      GammasLength(xs[1..], a, b);
    }
  }

  lemma {:induction false} PairsLength(xs: seq<(nat, nat)>, a: seq<Bit>, b: seq<Bit>)
    ensures |PairsThen(xs, b)| - |b| == |PairsThen(xs, a)| - |a|
  {
    if xs != [] {
      PairsLength(xs[1..], a, b);
    }
  }

  lemma {:induction false} ZetasLength(k: nat, xs: seq<nat>, a: seq<Bit>, b: seq<Bit>)
    requires k >= 1
    ensures |ZetasThen(k, xs, b)| - |b| == |ZetasThen(k, xs, a)| - |a|
  {
    if xs != [] {
      ZetasLength(k, xs[1..], a, b);
    }
  }

  lemma {:induction false} NodeLength(cfg: Config, lists: seq<Links>, c: NodeCode, a: seq<Bit>, b: seq<Bit>)
    requires CodeOk(cfg, lists, c)
    ensures |NodeThen(cfg, lists, c, b)| - |b| == |NodeThen(cfg, lists, c, a)| - |a|
  {
    hide CodeOk, GammasThen, PairsThen, ZetasThen, GammaCode, UnaryCode;
    ShortLinks(cfg, lists, c);
    var n, zs := |lists|, AllResidualCodes(|lists|, c.residuals);
    ZetasLength(cfg.zetaK, zs, a, b);
    PairsLength(AllIntervalCodes(cfg, n, c.intervals), ZetasThen(cfg.zetaK, zs, a), ZetasThen(cfg.zetaK, zs, b));
    GammasLength(BlockCodes(c.blocks), ExtraThen(cfg, n, c, a), ExtraThen(cfg, n, c, b));
  }

  lemma {:induction false} GraphLength(cfg: Config, lists: seq<Links>, codes: seq<NodeCode>, pad: nat)
    requires GraphOk(cfg, lists, codes)
    ensures |GraphBits(cfg, lists, codes, pad)| == |GraphBits(cfg, lists, codes, 0)| + pad
    decreases |codes|
  {
    if codes != [] {
      var lists' := lists + [codes[0].links];
      GraphLength(cfg, lists', codes[1..], pad);
      NodeLength(cfg, lists, codes[0], GraphBits(cfg, lists', codes[1..], 0), GraphBits(cfg, lists', codes[1..], pad));
    }
  }

  function Padding(n: nat): (r: nat)
    ensures (n + r) % 8 == 0
  {
    7 - (n + 7) % 8
  }

  /** Every well-formed description, with any references, blocks and intervals, is the contents
      of a file, which ReadGraph reads back. */
  lemma EveryDescriptionHasAFile(cfg: Config, codes: seq<NodeCode>) returns (bytes: seq<BitReader.Byte>, pad: nat)
    requires GraphOk(cfg, [], codes)
    ensures BitReader.AllBits(bytes) == GraphBits(cfg, [], codes, pad)
  {
    hide GraphOk, GraphBits, BitReader.AllBits;
    pad := Padding(|GraphBits(cfg, [], codes, 0)|);
    GraphLength(cfg, [], codes, pad);
    bytes := Packed(GraphBits(cfg, [], codes, pad));
  }

  /** In particular every strictly ascending graph has a file. */
  lemma EveryGraphHasAFile(cfg: Config, graph: seq<Links>) returns (bytes: seq<BitReader.Byte>, pad: nat)
    requires cfg.zetaK >= 1 && |graph| <= LIMIT
    requires forall i :: 0 <= i < |graph| ==> |graph[i]| < LIMIT && Climbing(graph[i], -1)
    ensures GraphOk(cfg, [], PlainCodes(graph)) && LinksOf(PlainCodes(graph)) == graph
    ensures BitReader.AllBits(bytes) == GraphBits(cfg, [], PlainCodes(graph), pad)
  {
    hide GraphOk, GraphBits, Climbing, BitReader.AllBits;
    EveryGraphHasACode(cfg, [], graph);
    bytes, pad := EveryDescriptionHasAFile(cfg, PlainCodes(graph));
  }
}
