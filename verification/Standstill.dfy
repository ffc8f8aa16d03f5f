/** Whether the connected-components kernel can lose all its residuals. Its g_func sends the
    value, so around a cycle with a positive value something is always on its way: a state
    without residual is reachable if and only if no cycle is reached by a positive id. */
module Standstill {
  import opened Collections
  import opened DeltaMonoid
  import opened Protocol
  import opened Refinement
  import opened Runs
  import opened Rounds
  import opened Components
  import opened ComponentsRounds

  /** Nothing is pending anywhere. */
  ghost predicate NoResidual(t: Table<nat>) { forall k :: k in t ==> t[k].delta == 0 }

  /** `k` is reached by a positive id, so its value ends positive. */
  ghost predicate Lit(adj: Graph, k: Key) { exists u: Key :: u > 0 && Reaches(adj, u, k) }

  /** A closed path through `k`. */
  ghost predicate OnCycle(adj: Graph, k: Key) { exists w :: w != [] && IsPath(adj, k, w, k) }

  ghost predicate LitCycle(adj: Graph) { exists k: Key :: Lit(adj, k) && OnCycle(adj, k) }

  /** Every edge out of a lit vertex goes up. */
  ghost predicate Ranked(adj: Graph, rank: map<Key, nat>)
    ensures Ranked(adj, rank) ==> rank.Keys == adj.Keys
  {
    && rank.Keys == adj.Keys
    && forall i, j :: i in adj && j in adj[i] && j in adj && Lit(adj, i) ==> rank[i] < rank[j]
  }

  lemma LitOn(adj: Graph, i: Key, j: Key)
    requires Lit(adj, i) && i in adj && j in adj[i]
    ensures Lit(adj, j)
  {
    var u: Key :| u > 0 && Reaches(adj, u, i);
    ExtendReal(adj, i, j, u);
  }

  // ---------------------------------------------------------------- ranks and cycles

  /** Along a path from a lit vertex the rank grows with every hop. */
  lemma {:induction false} RankGrows(keys: seq<Key>, adj: Graph, rank: map<Key, nat>, u: Key, w: seq<Key>, k: Key)
    requires ValidGraph(keys, adj) && Ranked(adj, rank) && Lit(adj, u) && IsPath(adj, u, w, k) && k in adj
    ensures u in rank && Lit(adj, k) && rank[u] + |w| <= rank[k]
    decreases |w|
  {
    if w != [] {
      var i := w[|w| - 1];
      RankGrows(keys, adj, rank, u, w[..|w| - 1], i);
      LitOn(adj, i, k);
    }
  }

  lemma CycleNotRanked(keys: seq<Key>, adj: Graph, rank: map<Key, nat>)
    requires ValidGraph(keys, adj) && LitCycle(adj)
    ensures !Ranked(adj, rank)
  {
    if Ranked(adj, rank) {
      var k: Key :| Lit(adj, k) && OnCycle(adj, k);
      var w :| w != [] && IsPath(adj, k, w, k);
      PathEnd(adj, k, w);
      RankGrows(keys, adj, rank, k, w, k);
      assert false;
    }
  }

  lemma {:induction false} PathStart(adj: Graph, u: Key, w: seq<Key>, k: Key)
    requires IsPath(adj, u, w, k)
    ensures u in adj
    decreases |w|
  {
    if w != [] {
      PathStart(adj, u, w[..|w| - 1], w[|w| - 1]);
    }
  }

  lemma PathEnd(adj: Graph, k: Key, w: seq<Key>)
    requires IsPath(adj, k, w, k)
    ensures k in adj
  {
    PathStart(adj, k, w, k);
  }

  ghost predicate LitPath(adj: Graph, k: Key, l: nat) {
    exists u: Key, w :: Lit(adj, u) && |w| == l && IsPath(adj, u, w, k)
  }

  /** Without a lit cycle, paths from lit vertices are short. */
  lemma LitPathShort(keys: seq<Key>, adj: Graph, k: Key, l: nat)
    requires ValidGraph(keys, adj) && !LitCycle(adj) && k in keys && LitPath(adj, k, l)
    ensures l < |keys|
  {
    var u: Key, w :| Lit(adj, u) && |w| == l && IsPath(adj, u, w, k);
    var vs := Vertices(w, k);
    forall a, b | 0 <= a < b < |vs|
      ensures vs[a] != vs[b]
    {
      if vs[a] == vs[b] {
        CutCycle(adj, u, w, k, a, b);
      }
    }
    SimplePathShort(keys, adj, u, w, k);
  }

  /** A path that comes back to a vertex has a cycle, lit when the path starts lit. */
  lemma CutCycle(adj: Graph, u: Key, w: seq<Key>, k: Key, a: nat, b: nat)
    requires Lit(adj, u) && IsPath(adj, u, w, k) && k in adj && a < b <= |w| && Vertices(w, k)[a] == Vertices(w, k)[b]
    ensures LitCycle(adj)
  {
    var v := Vertices(w, k)[a];
    PathPrefix(adj, u, w, k, a);
    LitAlong(adj, u, w[..a], v);
    PathPrefix(adj, u, w, k, b);
    PathKnown(adj, u, w, k);
    assert Vertices(w[..b], v)[a] == v;
    PathSuffix(adj, u, w[..b], v, a);
    assert OnCycle(adj, v);
  }

  lemma {:induction false} LitAlong(adj: Graph, u: Key, w: seq<Key>, k: Key)
    requires Lit(adj, u) && IsPath(adj, u, w, k)
    ensures Lit(adj, k)
    decreases |w|
  {
    if w != [] {
      LitAlong(adj, u, w[..|w| - 1], w[|w| - 1]);
      LitOn(adj, w[|w| - 1], k);
    }
  }

  /** The length of the longest path from a lit vertex to `k`, among those up to `b`. */
  ghost function Longest(adj: Graph, k: Key, b: nat): (l: nat)
    ensures l <= b && (LitPath(adj, k, l) || l == 0)
    ensures forall m: nat :: m <= b && LitPath(adj, k, m) ==> m <= l
  {
    if b == 0 || LitPath(adj, k, b) then b else Longest(adj, k, b - 1)
  }

  /** Without a lit cycle the longest paths rank the vertices. */
  lemma SomeRank(keys: seq<Key>, adj: Graph) returns (rank: map<Key, nat>)
    requires ValidGraph(keys, adj) && !LitCycle(adj)
    ensures Ranked(adj, rank)
  {
    rank := map k | k in adj :: Longest(adj, k, |keys|);
    forall i, j | i in adj && j in adj[i] && j in adj && Lit(adj, i)
      ensures rank[i] < rank[j]
    {
      EdgeUp(keys, adj, i, j);
    }
  }

  lemma LitSelf(adj: Graph, i: Key)
    requires Lit(adj, i) && i in adj
    ensures LitPath(adj, i, 0)
  {
    assert IsPath(adj, i, [], i);
  }

  lemma LitLonger(adj: Graph, i: Key, j: Key, l: nat)
    requires LitPath(adj, i, l) && i in adj && j in adj[i]
    ensures LitPath(adj, j, l + 1)
  {
    var u: Key, w :| Lit(adj, u) && |w| == l && IsPath(adj, u, w, i);
    var w' := w + [i];
    assert w'[..|w'| - 1] == w;
    assert IsPath(adj, u, w', j) && |w'| == l + 1;
  }

  lemma EdgeUp(keys: seq<Key>, adj: Graph, i: Key, j: Key)
    requires ValidGraph(keys, adj) && !LitCycle(adj) && i in adj && j in adj[i] && j in adj && Lit(adj, i)
    ensures Longest(adj, i, |keys|) < Longest(adj, j, |keys|)
  {
    hide Lit, LitCycle, Longest, LitPath;
    var l := Longest(adj, i, |keys|);
    LitSelf(adj, i);
    LitLonger(adj, i, j, l);
    LitPathShort(keys, adj, j, l + 1);
  }

  // ---------------------------------------------------------------- no residual means ranked

  /** Where nothing is pending, the target was processed after the source. */
  ghost predicate Layered(keys: seq<Key>, adj: Graph, t: Table<nat>, rank: map<Key, nat>)
    ensures Layered(keys, adj, t, rank) ==> forall k :: k in t ==> k in keys
  {
    && (forall k :: k in keys <==> k in t) && rank.Keys == t.Keys
    && forall i, j :: i in t && i in adj && j in adj[i] && j in t && t[i].value > 0 && t[j].delta == 0 ==>
         rank[i] < rank[j]
  }

  ghost predicate SomeLayers(keys: seq<Key>, adj: Graph, t: Table<nat>) {
    exists rank :: Layered(keys, adj, t, rank)
  }

  /** A rank above all others. */
  lemma {:induction false} Top(rank: map<Key, nat>) returns (top: nat)
    ensures forall k :: k in rank ==> rank[k] < top
    decreases |rank|
  {
    if rank == map[] {
      top := 0;
    } else {
      var k :| k in rank;
      var rest := Top(rank - {k});
      top := rest + rank[k] + 1;
      assert forall x :: x in rank ==> x == k || x in rank - {k};
    }
  }

  /** A processed key moves to the top. */
  lemma LayeredStep(n: nat, keys: seq<Key>, adj: Graph, t: Table<nat>, t': Table<nat>, k: Key, d: nat, rest: nat)
    requires ValidGraph(keys, adj) && SomeLayers(keys, adj, t)
    requires TableStep(Job(n, keys, adj), t, t', k, d, rest)
    ensures SomeLayers(keys, adj, t')
  {
    hide Layered;
    var rank :| Layered(keys, adj, t, rank);
    var top := Top(rank);
    StepRows(n, keys, adj, t, t', k, d, rest);
    LayeredRows(keys, adj, t, t', k, rank, top);
  }

  lemma LayeredRows(keys: seq<Key>, adj: Graph, t: Table<nat>, t': Table<nat>, k: Key, rank: map<Key, nat>, top: nat)
    requires k in t && k in adj && t'.Keys == t.Keys && Layered(keys, adj, t, rank)
    requires forall i :: i in rank ==> rank[i] < top
    requires forall i :: i in t && i != k ==> t'[i].value == t[i].value
    requires forall j :: j in t && j in adj[k] ==> t'[k].value <= t'[j].delta
    requires forall j :: j in t && j != k ==> t[j].delta <= t'[j].delta
    ensures Layered(keys, adj, t', rank[k := top])
  {
  }

  /** What a step does to values and residuals, as far as the layers need it. */
  lemma StepRows(n: nat, keys: seq<Key>, adj: Graph, t: Table<nat>, t': Table<nat>, k: Key, d: nat, rest: nat)
    requires k in adj && TableStep(Job(n, keys, adj), t, t', k, d, rest)
    ensures k in t && t'.Keys == t.Keys
    ensures forall i :: i in t && i != k ==> t'[i].value == t[i].value
    ensures forall j :: j in t && j in adj[k] ==> t'[k].value <= t'[j].delta
    ensures forall j :: j in t && j != k ==> t[j].delta <= t'[j].delta
  {
    forall j | j in t
      ensures t'.Keys == t.Keys && (j != k ==> t'[j].value == t[j].value && t[j].delta <= t'[j].delta)
      ensures j in adj[k] ==> t'[k].value <= t'[j].delta
    {
      AtSpread(adj[k], Max(t[k].value, d), j);
    }
  }

  ghost function LayersInv(keys: seq<Key>, adj: Graph): Table<nat> -> bool {
    (t: Table<nat>) => SomeLayers(keys, adj, t)
  }

  lemma LayersInductive(n: nat, keys: seq<Key>, adj: Graph)
    requires ValidGraph(keys, adj)
    ensures Inductive(Job(n, keys, adj), RealIds(adj), LayersInv(keys, adj))
  {
    forall t, t', k, d, rest | SomeLayers(keys, adj, t) && TableStep(Job(n, keys, adj), t, t', k, d, rest)
      ensures SomeLayers(keys, adj, t')
    {
      LayeredStep(n, keys, adj, t, t', k, d, rest);
    }
  }

  lemma StartLayers(keys: seq<Key>, adj: Graph, t: Table<nat>)
    requires t == map k | k in keys :: Row(k, 0)
    ensures SomeLayers(keys, adj, t)
  {
    assert Layered(keys, adj, t, map k | k in keys :: 0);
  }

  lemma EveryRunLayered(n: nat, keys: seq<Key>, adj: Graph, acts: seq<Action<nat>>)
    requires ValidRun(n, keys, adj, acts)
    ensures SomeLayers(keys, adj, After(n, keys, adj, acts))
  {
    var p := Job(n, keys, adj);
    RealClosed(n, keys, adj);
    LayersInductive(n, keys, adj);
    InitiallyReal(n, keys, adj);
    InitialAbs(p);
    StartLayers(keys, adj, Abs(p, Initial(p)));
    RunInvariant(p, Initial(p), acts, RealIds(adj), LayersInv(keys, adj));
  }

  /** A table without residual has the lit vertices positive, so its layers rank the graph. */
  lemma NoResidualRanked(keys: seq<Key>, adj: Graph, t: Table<nat>) returns (rank: map<Key, nat>)
    requires ValidGraph(keys, adj) && Spreading(keys, adj, t) && TableHolds(t, RealIds(adj))
    requires NoResidual(t) && SomeLayers(keys, adj, t)
    ensures Ranked(adj, rank)
  {
    hide Lit, Spreading, RealIds;
    rank :| Layered(keys, adj, t, rank);
    forall i, j | i in adj && j in adj[i] && j in adj && Lit(adj, i)
      ensures rank[i] < rank[j]
    {
      LitPositive(keys, adj, t, i);
    }
  }

  lemma LitPositive(keys: seq<Key>, adj: Graph, t: Table<nat>, i: Key)
    requires ValidGraph(keys, adj) && Spreading(keys, adj, t) && TableHolds(t, RealIds(adj))
    requires Stable(t) && i in keys && Lit(adj, i)
    ensures i in t && t[i].value > 0
  {
    hide Reaches, Stable, TableHolds;
    StableRowIsExact(keys, adj, t, i);
    var u: Key :| u > 0 && Reaches(adj, u, i);
  }

  /** If a positive id reaches a cycle, something is pending in every reachable state. */
  lemma LitCycleNeverRests(n: nat, keys: seq<Key>, adj: Graph, acts: seq<Action<nat>>)
    requires ValidRun(n, keys, adj, acts) && LitCycle(adj)
    ensures !NoResidual(After(n, keys, adj, acts))
  {
    if NoResidual(After(n, keys, adj, acts)) {
      EveryRunSpreading(n, keys, adj, acts);
      EveryRunLayered(n, keys, adj, acts);
      var rank := NoResidualRanked(keys, adj, After(n, keys, adj, acts));
      CycleNotRanked(keys, adj, rank);
    }
  }

  // ---------------------------------------------------------------- ranked means some run rests

  lemma {:induction false} LastRanked(ks: set<Key>, rank: map<Key, nat>) returns (x: Key)
    requires ks != {} && ks <= rank.Keys
    ensures x in ks && forall y :: y in ks ==> rank[y] <= rank[x]
    decreases ks
  {
    x :| x in ks;
    var rest := ks - {x};
    assert forall y :: y in ks ==> y == x || y in rest;
    if rest != {} {
      var z := LastRanked(rest, rank);
      if rank[z] > rank[x] {
        x := z;
      }
    }
  }

  ghost predicate InOrder(order: seq<Key>, rank: map<Key, nat>) {
    && (forall i :: 0 <= i < |order| ==> order[i] in rank)
    && forall i, j :: 0 <= i < j < |order| ==> rank[order[i]] <= rank[order[j]]
  }

  lemma {:induction false} SortByRank(ks: set<Key>, rank: map<Key, nat>) returns (order: seq<Key>)
    requires ks <= rank.Keys
    ensures InOrder(order, rank) && forall k :: k in order <==> k in ks
    decreases ks
  {
    if ks == {} {
      order := [];
    } else {
      var x := LastRanked(ks, rank);
      var before := SortByRank(ks - {x}, rank);
      order := before + [x];
      forall i | 0 <= i < |before|
        ensures rank[before[i]] <= rank[x]
      {
        assert before[i] in before;
      }
    }
  }

  ghost predicate ZeroUpTo(t: Table<nat>, order: seq<Key>, i: nat) {
    forall j :: 0 <= j < i && j < |order| && order[j] in t ==> t[order[j]].delta == 0
  }

  /** Processing the next vertex in order sends nothing back to an earlier one. */
  lemma PassStep(n: nat, keys: seq<Key>, adj: Graph, rank: map<Key, nat>, order: seq<Key>, i: nat,
                 t: Table<nat>, t': Table<nat>)
    requires ValidGraph(keys, adj) && Ranked(adj, rank) && InOrder(order, rank) && i < |order|
    requires order[i] in t && order[i] in adj
    requires TableHolds(t, RealIds(adj)) && ZeroUpTo(t, order, i)
    requires TableStep(Job(n, keys, adj), t, t', order[i], t[order[i]].delta, 0)
    ensures ZeroUpTo(t', order, i + 1)
  {
    var k := order[i];
    PassRows(n, keys, adj, t, t', k);
    hide TableStep, Lit, RealIds, TableHolds;
    LitByValue(adj, t, k);
    forall b | 0 <= b <= i && order[b] in t'
      ensures t'[order[b]].delta == 0
    {
      assert b < i ==> rank[order[b]] <= rank[k] && t[order[b]].delta == 0;
    }
  }

  /** The residuals after a key lost all of its own. */
  lemma PassRows(n: nat, keys: seq<Key>, adj: Graph, t: Table<nat>, t': Table<nat>, k: Key)
    requires k in t && k in adj && TableStep(Job(n, keys, adj), t, t', k, t[k].delta, 0)
    ensures t'.Keys == t.Keys
    ensures forall j :: j in t ==>
              t'[j].delta == Max(if j == k then 0 else t[j].delta, if j in adj[k] then Best(t[k]) else 0)
  {
    forall j | j in t
      ensures j in t' && t'[j].delta == Max(if j == k then 0 else t[j].delta, if j in adj[k] then Best(t[k]) else 0)
    {
      AtSpread(adj[k], Best(t[k]), j);
    }
  }

  lemma LitByValue(adj: Graph, t: Table<nat>, k: Key)
    requires k in t && TableHolds(t, RealIds(adj))
    ensures Best(t[k]) > 0 ==> Lit(adj, k)
  {
    assert RealIds(adj)(k, t[k].value) && RealIds(adj)(k, t[k].delta);
  }

  /** One pass in the order of the ranks leaves nothing pending. */
  lemma RankedPass(n: nat, keys: seq<Key>, adj: Graph, rank: map<Key, nat>) returns (acts: seq<Action<nat>>)
    requires n > 0 && ValidGraph(keys, adj) && Ranked(adj, rank)
    ensures ValidRun(n, keys, adj, acts) && NoResidual(After(n, keys, adj, acts))
  {
    hide Feasible, Run, AtRest, Abs, TableStep, Ranked, InOrder, ZeroUpTo, Spreading, Everywhere;
    JobValid(n, keys, adj);
    var p := Job(n, keys, adj);
    var order := SortByRank(adj.Keys, rank);
    acts := [];
    NoRun(p, Initial(p));
    InitialAtRest(p);
    ZeroUpToNone(After(n, keys, adj, acts), order);
    var i := 0;
    while i < |order|
      invariant i <= |order| && ValidRun(n, keys, adj, acts) && AtRest(Final(n, keys, adj, acts))
      invariant ZeroUpTo(After(n, keys, adj, acts), order, i)
    {
      assert order[i] in order;
      var more, c' := ProcessAndSettle(p, Final(n, keys, adj, acts), order[i]);
      RunConcat(p, Initial(p), acts, more);
      EveryRunSpreading(n, keys, adj, acts);
      AbsKeys(p, Final(n, keys, adj, acts));
      PassStep(n, keys, adj, rank, order, i, After(n, keys, adj, acts), After(n, keys, adj, acts + more));
      acts := acts + more;
      i := i + 1;
    }
    AbsKeys(p, Final(n, keys, adj, acts));
    ZeroAll(After(n, keys, adj, acts), order);
  }

  lemma ZeroUpToNone(t: Table<nat>, order: seq<Key>)
    ensures ZeroUpTo(t, order, 0)
  {
  }

  lemma AbsKeys(p: Program<nat>, c: Cluster<nat>)
    requires p.n > 0 && ClusterOk(p, c)
    ensures Abs(p, c).Keys == set k | k in p.keys
  {
  }

  lemma ZeroAll(t: Table<nat>, order: seq<Key>)
    requires ZeroUpTo(t, order, |order|) && forall k :: k in t ==> k in order
    ensures NoResidual(t)
  {
    forall k | k in t
      ensures t[k].delta == 0
    {
      var j :| 0 <= j < |order| && order[j] == k;
    }
  }

  // ---------------------------------------------------------------- the condition

  ghost predicate CanRest(n: nat, keys: seq<Key>, adj: Graph) {
    exists acts :: ValidRun(n, keys, adj, acts) && NoResidual(After(n, keys, adj, acts))
  }

  /** Some schedule leaves no residual if and only if no cycle is reached by a positive id. */
  lemma RestsWithoutLitCycle(n: nat, keys: seq<Key>, adj: Graph)
    requires n > 0 && ValidGraph(keys, adj)
    ensures CanRest(n, keys, adj) <==> !LitCycle(adj)
  {
    if LitCycle(adj) {
      forall acts | ValidRun(n, keys, adj, acts)
        ensures !NoResidual(After(n, keys, adj, acts))
      {
        LitCycleNeverRests(n, keys, adj, acts);
      }
    } else {
      var rank := SomeRank(keys, adj);
      var acts := RankedPass(n, keys, adj, rank);
      assert CanRest(n, keys, adj);
    }
  }

  /** For example, two vertices that point at each other never come to rest. */
  lemma TwoCycleNeverRests(n: nat)
    requires n > 0
    ensures ValidGraph([1, 2], map[1 := [2], 2 := [1]]) && LitCycle(map[1 := [2], 2 := [1]])
    ensures !CanRest(n, [1, 2], map[1 := [2], 2 := [1]])
  {
    var adj: Graph := map[1 := [2], 2 := [1]];
    assert IsPath(adj, 1, [], 1);
    assert [1, 2][..1] == [1] && [1][..0] == [];
    assert IsPath(adj, 1, [1], 2);
    assert IsPath(adj, 1, [1, 2], 1);
    assert Reaches(adj, 1, 1) && OnCycle(adj, 1);
    assert Lit(adj, 1);
    RestsWithoutLitCycle(n, [1, 2], adj);
  }
}
