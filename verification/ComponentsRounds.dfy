/** How fast the connected-components kernel settles: as many rounds as there are vertices reach
    a stable state. */
module ComponentsRounds {
  import opened Collections
  import opened DeltaMonoid
  import opened Protocol
  import opened Refinement
  import opened Runs
  import opened Rounds
  import opened Components

  // ---------------------------------------------------------------- paths

  ghost function Vertices(w: seq<Key>, k: Key): seq<Key> { w + [k] }

  lemma {:induction false} PathPrefix(adj: Graph, u: Key, w: seq<Key>, k: Key, j: nat)
    requires IsPath(adj, u, w, k) && j <= |w|
    ensures IsPath(adj, u, w[..j], Vertices(w, k)[j])
    decreases |w|
  {
    if j == |w| {
      assert w[..j] == w;
    } else {
      var w0, last := w[..|w| - 1], w[|w| - 1];
      PathPrefix(adj, u, w0, last, j);
      assert w0[..j] == w[..j] && Vertices(w0, last)[j] == Vertices(w, k)[j];
    }
  }

  lemma {:induction false} PathSuffix(adj: Graph, u: Key, w: seq<Key>, k: Key, j: nat)
    requires IsPath(adj, u, w, k) && j <= |w| && k in adj
    ensures IsPath(adj, Vertices(w, k)[j], w[j..], k)
    decreases |w|
  {
    if j == |w| {
      assert w[j..] == [];
    } else {
      var w0, last := w[..|w| - 1], w[|w| - 1];
      PathSuffix(adj, u, w0, last, j);
      assert w[j..][..|w[j..]| - 1] == w0[j..] && Vertices(w0, last)[j] == Vertices(w, k)[j];
    }
  }

  lemma {:induction false} PathKnown(adj: Graph, u: Key, w: seq<Key>, k: Key)
    requires IsPath(adj, u, w, k) && k in adj
    ensures forall j :: 0 <= j <= |w| ==> Vertices(w, k)[j] in adj
    decreases |w|
  {
    if w != [] {
      PathKnown(adj, u, w[..|w| - 1], w[|w| - 1]);
      assert Vertices(w[..|w| - 1], w[|w| - 1]) == w;
    }
  }

  /** A path that visits no vertex twice has fewer hops than there are vertices. */
  lemma SimplePathShort(keys: seq<Key>, adj: Graph, u: Key, w: seq<Key>, k: Key)
    requires ValidGraph(keys, adj) && k in keys && IsPath(adj, u, w, k) && NoDup(Vertices(w, k))
    ensures |w| < |keys|
  {
    PathKnown(adj, u, w, k);
    NoDupSize(Vertices(w, k), set x | x in keys);
    ElementsSize(keys);
  }

  lemma {:induction false} SimplePath(adj: Graph, u: Key, w: seq<Key>, k: Key) returns (s: seq<Key>)
    requires IsPath(adj, u, w, k)
    ensures IsPath(adj, u, s, k) && NoDup(Vertices(s, k))
    decreases |w|
  {
    if w == [] {
      s := [];
    } else {
      var i := w[|w| - 1];
      var s0 := SimplePath(adj, u, w[..|w| - 1], i);
      var vs := Vertices(s0, i);
      if k in vs {
        var j :| 0 <= j < |vs| && vs[j] == k;
        PathPrefix(adj, u, s0, i, j);
        s := s0[..j];
        assert Vertices(s, k) == vs[..j + 1];
      } else {
        s := vs;
        assert s[..|s| - 1] == s0;
      }
    }
  }

  // ---------------------------------------------------------------- rounds

  /** Each vertex has, or is about to get, every id that reaches it within `r` hops. */
  ghost predicate Reached(keys: seq<Key>, adj: Graph, t: Table<nat>, r: nat) {
    forall k, u: Key, w :: k in keys && k in t && |w| <= r && IsPath(adj, u, w, k) ==> u <= Best(t[k])
  }

  /** Every value has been brought up to what value and residual were together. */
  ghost predicate Folded(keys: seq<Key>, t: Table<nat>, t': Table<nat>) {
    forall k :: k in keys ==> k in t && k in t' && Best(t[k]) <= t'[k].value
  }

  lemma ReachedStart(keys: seq<Key>, adj: Graph, t: Table<nat>)
    requires Spreading(keys, adj, t)
    ensures Reached(keys, adj, t, 0)
  {
  }

  lemma ReachedNext(keys: seq<Key>, adj: Graph, t: Table<nat>, t': Table<nat>, r: nat)
    requires ValidGraph(keys, adj) && Spreading(keys, adj, t')
    requires Reached(keys, adj, t, r) && Folded(keys, t, t')
    ensures Reached(keys, adj, t', r + 1)
  {
    forall k, u: Key, w | k in keys && k in t' && |w| <= r + 1 && IsPath(adj, u, w, k)
      ensures u <= Best(t'[k])
    {
      if w != [] {
        var i := w[|w| - 1];
        assert IsPath(adj, u, w[..|w| - 1], i) && i in t';
        assert u <= Best(t[i]) <= t'[i].value <= Best(t'[k]);
      }
    }
  }

  lemma StableAfterLast(keys: seq<Key>, adj: Graph, t: Table<nat>, t': Table<nat>, r: nat)
    requires ValidGraph(keys, adj) && |keys| <= r + 1
    requires Reached(keys, adj, t, r) && Folded(keys, t, t')
    requires Spreading(keys, adj, t') && TableHolds(t', RealIds(adj))
    ensures Stable(t')
  {
    forall k | k in t'
      ensures t'[k].delta <= t'[k].value
    {
      var u: Key := t'[k].delta;
      assert RealIds(adj)(k, u);
      if u > 0 {
        var w :| IsPath(adj, u, w, k);
        var s := SimplePath(adj, u, w, k);
        SimplePathShort(keys, adj, u, s, k);
        assert u <= Best(t[k]);
      }
    }
  }

  /** Rounds one after the other, from the loaded cluster. */
  ghost predicate FromStart(n: nat, keys: seq<Key>, adj: Graph, rounds: seq<seq<Action<nat>>>) {
    ValidRun(n, keys, adj, []) && AllRounds(Job(n, keys, adj), Initial(Job(n, keys, adj)), rounds)
  }

  ghost function Up(): (nat, nat) -> bool { (a: nat, b: nat) => a <= b }

  lemma MaxGoesUp(adj: Graph)
    ensures GoesUp(MaxMonoid, RealIds(adj), Up())
  {
  }

  lemma FoldedByRows(p: Program<nat>, c: Cluster<nat>, c': Cluster<nat>)
    requires p.n > 0 && ClusterOk(p, c) && ClusterOk(p, c') && p.m == MaxMonoid
    requires forall k :: k in p.keys ==> Up()(Sum(p.m, Abs(p, c)[k]), Abs(p, c')[k].value)
    ensures Folded(p.keys, Abs(p, c), Abs(p, c'))
  {
    hide Residual, ValueOf, ClusterOk;
    forall k | k in p.keys
      ensures Best(Abs(p, c)[k]) <= Abs(p, c')[k].value
    {
      assert Up()(Sum(p.m, Abs(p, c)[k]), Abs(p, c')[k].value);
    }
  }

  /** Any schedule that processes every key at least once, from any reachable state at rest. */
  lemma RoundFoldsAll(n: nat, keys: seq<Key>, adj: Graph, acts: seq<Action<nat>>, round: seq<Action<nat>>)
    requires ValidRun(n, keys, adj, acts) && Round(Job(n, keys, adj), Final(n, keys, adj, acts), round)
    ensures ValidRun(n, keys, adj, acts + round)
    ensures Folded(keys, After(n, keys, adj, acts), After(n, keys, adj, acts + round))
  {
    hide Feasible, Run, Round, Everywhere, Spreading, Abs, Folded, GoesUp;
    var p := Job(n, keys, adj);
    var c := Final(n, keys, adj, acts);
    RunConcat(p, Initial(p), acts, round);
    EveryRunSpreading(n, keys, adj, acts);
    RealClosed(n, keys, adj);
    MaxGoesUp(adj);
    RoundFolds(p, c, round, RealIds(adj), Up());
    FoldedByRows(p, c, Run(p, c, round));
  }

  lemma {:induction false} RoundsReach(n: nat, keys: seq<Key>, adj: Graph, rounds: seq<seq<Action<nat>>>)
    requires FromStart(n, keys, adj, rounds)
    ensures ValidRun(n, keys, adj, Flat(rounds))
    ensures Reached(keys, adj, After(n, keys, adj, Flat(rounds)), |rounds|)
    decreases |rounds|
  {
    hide Feasible, Run, Round, Reached, Spreading, Abs;
    var p := Job(n, keys, adj);
    RoundsRun(p, Initial(p), rounds);
    EveryRunSpreading(n, keys, adj, Flat(rounds));
    if rounds == [] {
      ReachedStart(keys, adj, After(n, keys, adj, []));
    } else {
      var before, last := rounds[..|rounds| - 1], rounds[|rounds| - 1];
      RoundsReach(n, keys, adj, before);
      RoundFoldsAll(n, keys, adj, Flat(before), last);
      ReachedNext(keys, adj, After(n, keys, adj, Flat(before)), After(n, keys, adj, Flat(rounds)), |before|);
    }
  }

  /** As many rounds as there are vertices, each in any order, reach a stable state in which
      every vertex has the largest id that reaches it. */
  lemma RoundsSettle(n: nat, keys: seq<Key>, adj: Graph, rounds: seq<seq<Action<nat>>>)
    requires FromStart(n, keys, adj, rounds) && |rounds| >= |keys|
    ensures ValidRun(n, keys, adj, Flat(rounds))
    ensures Stable(After(n, keys, adj, Flat(rounds)))
    ensures forall k :: k in keys ==>
              k in After(n, keys, adj, Flat(rounds))
              && IsLargest(adj, k, After(n, keys, adj, Flat(rounds))[k].value)
  {
    hide Feasible, Run, Round, Reached, Abs, IsLargest;
    var p := Job(n, keys, adj);
    RoundsRun(p, Initial(p), rounds);
    EveryRunSpreading(n, keys, adj, Flat(rounds));
    if rounds == [] {
      assert keys == [];
    } else {
      var before, last := rounds[..|rounds| - 1], rounds[|rounds| - 1];
      RoundsReach(n, keys, adj, before);
      RoundFoldsAll(n, keys, adj, Flat(before), last);
      StableAfterLast(keys, adj, After(n, keys, adj, Flat(before)), After(n, keys, adj, Flat(rounds)), |before|);
    }
    StableRunIsExact(n, keys, adj, Flat(rounds));
  }
}
