/** How fast shortest paths settle: with non-negative weights, after as many rounds as there are
    vertices no pending delta changes a value, so every value is exact. */
module ShortestPathRounds {
  import opened Collections
  import opened DeltaMonoid
  import opened Protocol
  import opened Refinement
  import opened Runs
  import opened Rounds
  import opened ShortestPath

  ghost predicate NonNegativeWeights(adj: Graph) {
    forall k, e :: k in adj && 0 <= e < |adj[k]| ==> adj[k][e].weight >= 0.0
  }

  // ---------------------------------------------------------------- short walks suffice

  /** The vertices of a walk to `k`, in order. */
  ghost function Vertices(w: seq<(Key, nat)>, k: Key): (r: seq<Key>)
    ensures |r| == |w| + 1 && r[|w|] == k && forall j :: 0 <= j < |w| ==> r[j] == w[j].0
  {
    seq(|w| + 1, (j: nat) requires j <= |w| => if j < |w| then w[j].0 else k)
  }

  /** The beginning of a walk is a walk to where it stops, and no longer. */
  lemma {:induction false} WalkPrefix(adj: Graph, source: Key, w: seq<(Key, nat)>, k: Key, j: nat)
    requires NonNegativeWeights(adj) && IsWalk(adj, source, w, k) && j <= |w|
    ensures IsWalk(adj, source, w[..j], Vertices(w, k)[j])
    ensures Length(adj, source, w[..j], Vertices(w, k)[j]) <= Length(adj, source, w, k)
    decreases |w|
  {
    if j == |w| {
      assert w[..j] == w;
    } else {
      var w0, last := w[..|w| - 1], w[|w| - 1];
      WalkPrefix(adj, source, w0, last.0, j);
      assert w0[..j] == w[..j];
    }
  }

  lemma {:induction false} LastHop(adj: Graph, source: Key, w: seq<(Key, nat)>, i: Key, e: nat)
    requires i in adj && e < |adj[i]|
    ensures IsWalk(adj, source, w + [(i, e)], adj[i][e].end) <==> IsWalk(adj, source, w, i)
    ensures IsWalk(adj, source, w, i) ==>
              Length(adj, source, w + [(i, e)], adj[i][e].end) == Length(adj, source, w, i) + adj[i][e].weight
  {
    var w' := w + [(i, e)];
    assert w'[..|w'| - 1] == w;
  }

  lemma {:induction false} Hops(adj: Graph, source: Key, w: seq<(Key, nat)>, k: Key)
    requires IsWalk(adj, source, w, k) && w != []
    ensures var h := w[|w| - 1]; h.0 in adj && h.1 < |adj[h.0]| && adj[h.0][h.1].end == k
  {
  }

  /** Every walk can be replaced by one that visits no vertex twice. */
  lemma {:induction false} SimpleWalk(adj: Graph, source: Key, w: seq<(Key, nat)>, k: Key)
    returns (s: seq<(Key, nat)>)
    requires NonNegativeWeights(adj) && IsWalk(adj, source, w, k)
    ensures IsWalk(adj, source, s, k) && Length(adj, source, s, k) <= Length(adj, source, w, k)
    ensures NoDup(Vertices(s, k))
    decreases |w|
  {
    hide IsWalk, Length, Vertices;
    if w == [] {
      s := w;
    } else {
      Hops(adj, source, w, k);
      var i, e := w[|w| - 1].0, w[|w| - 1].1;
      assert w == w[..|w| - 1] + [(i, e)];
      LastHop(adj, source, w[..|w| - 1], i, e);
      var s0 := SimpleWalk(adj, source, w[..|w| - 1], i);
      var vs := Vertices(s0, i);
      if k in vs {
        var j :| 0 <= j < |vs| && vs[j] == k;
        WalkPrefix(adj, source, s0, i, j);
        s := s0[..j];
        assert Vertices(s, k) == vs[..j + 1];
      } else {
        LastHop(adj, source, s0, i, e);
        s := s0 + [(i, e)];
        assert Vertices(s, k) == vs + [k];
      }
    }
  }

  lemma {:induction false} VerticesKnown(adj: Graph, source: Key, w: seq<(Key, nat)>, k: Key)
    requires IsWalk(adj, source, w, k) && k in adj
    ensures forall j :: 0 <= j <= |w| ==> Vertices(w, k)[j] in adj
    decreases |w|
  {
    if w != [] {
      VerticesKnown(adj, source, w[..|w| - 1], w[|w| - 1].0);
      forall j | 0 <= j <= |w|
        ensures Vertices(w, k)[j] in adj
      {
        if j < |w| {
          assert Vertices(w[..|w| - 1], w[|w| - 1].0)[j] == Vertices(w, k)[j];
        }
      }
    }
  }

  /** So fewer hops than there are vertices are enough. */
  lemma ShortWalk(keys: seq<Key>, adj: Graph, source: Key, w: seq<(Key, nat)>, k: Key) returns (s: seq<(Key, nat)>)
    requires ValidGraph(keys, adj) && NonNegativeWeights(adj) && k in keys && IsWalk(adj, source, w, k)
    ensures IsWalk(adj, source, s, k) && Length(adj, source, s, k) <= Length(adj, source, w, k)
    ensures |s| < |keys|
  {
    s := SimpleWalk(adj, source, w, k);
    VerticesKnown(adj, source, s, k);
    NoDupSize(Vertices(s, k), set x | x in keys);
    ElementsSize(keys);
  }

  // ---------------------------------------------------------------- what each round achieves

  /** Each vertex has, or is about to get, a distance no longer than any walk of `r` hops. */
  ghost predicate Reached(keys: seq<Key>, adj: Graph, source: Key, t: Table<Dist>, r: nat) {
    forall k, w :: k in keys && k in t && |w| <= r && IsWalk(adj, source, w, k) ==>
      AtMost(Best(t[k]), Fin(Length(adj, source, w, k)))
  }

  /** Every value has been brought down to what value and residual were together. */
  ghost predicate Lowered(keys: seq<Key>, t: Table<Dist>, t': Table<Dist>) {
    forall k :: k in keys ==> k in t && k in t' && AtMost(t'[k].value, Best(t[k]))
  }

  lemma ReachedStart(keys: seq<Key>, adj: Graph, source: Key, t: Table<Dist>)
    requires Relaxed(keys, adj, source, t)
    ensures Reached(keys, adj, source, t, 0)
  {
  }

  lemma ReachedNext(keys: seq<Key>, adj: Graph, source: Key, t: Table<Dist>, t': Table<Dist>, r: nat)
    requires ValidGraph(keys, adj) && Relaxed(keys, adj, source, t')
    requires Reached(keys, adj, source, t, r) && Lowered(keys, t, t')
    ensures Reached(keys, adj, source, t', r + 1)
  {
    forall k, w | k in keys && k in t' && |w| <= r + 1 && IsWalk(adj, source, w, k)
      ensures AtMost(Best(t'[k]), Fin(Length(adj, source, w, k)))
    {
      if w != [] {
        var (i, e) := w[|w| - 1];
        assert AtMost(Best(t[i]), Fin(Length(adj, source, w[..|w| - 1], i)));
        assert AtMost(Best(t'[adj[i][e].end]), Extend(t'[i].value, adj[i][e].weight));
      }
    }
  }

  lemma StableAfterLast(keys: seq<Key>, adj: Graph, source: Key, t: Table<Dist>, t': Table<Dist>, r: nat)
    requires ValidGraph(keys, adj) && NonNegativeWeights(adj) && |keys| <= r + 1
    requires Reached(keys, adj, source, t, r) && Lowered(keys, t, t')
    requires Relaxed(keys, adj, source, t') && TableHolds(t', RealWalks(adj, source))
    ensures Stable(t')
  {
    forall k | k in t'
      ensures AtMost(t'[k].value, t'[k].delta)
    {
      assert RealWalks(adj, source)(k, t'[k].delta);
      if t'[k].delta.Fin? {
        var w :| WalkOfLength(adj, source, w, k, t'[k].delta.d);
        var s := ShortWalk(keys, adj, source, w, k);
        assert AtMost(Best(t[k]), Fin(Length(adj, source, s, k)));
      }
    }
  }

  // ---------------------------------------------------------------- the theorem

  /** Rounds one after the other, from the loaded cluster. */
  ghost predicate FromStart(n: nat, keys: seq<Key>, adj: Graph, source: Key, rounds: seq<seq<Action<Dist>>>) {
    && ValidRun(n, keys, adj, source, [])
    && AllRounds(Job(n, keys, adj, source), Initial(Job(n, keys, adj, source)), rounds)
  }

  ghost function Down(): (Dist, Dist) -> bool { (a: Dist, b: Dist) => AtMost(b, a) }

  lemma MinGoesDown(adj: Graph, source: Key)
    ensures GoesUp(MinMonoid, RealWalks(adj, source), Down())
  {
  }

  lemma LoweredByRows(p: Program<Dist>, c: Cluster<Dist>, c': Cluster<Dist>)
    requires p.n > 0 && ClusterOk(p, c) && ClusterOk(p, c') && p.m == MinMonoid
    requires forall k :: k in p.keys ==> Down()(Sum(p.m, Abs(p, c)[k]), Abs(p, c')[k].value)
    ensures Lowered(p.keys, Abs(p, c), Abs(p, c'))
  {
    hide Residual, ValueOf, ClusterOk;
    forall k | k in p.keys
      ensures AtMost(Abs(p, c')[k].value, Best(Abs(p, c)[k]))
    {
      assert Down()(Sum(p.m, Abs(p, c)[k]), Abs(p, c')[k].value);
    }
  }

  /** Any schedule that processes every key at least once, from any reachable state at rest. */
  lemma RoundLowers(n: nat, keys: seq<Key>, adj: Graph, source: Key, acts: seq<Action<Dist>>, round: seq<Action<Dist>>)
    requires ValidRun(n, keys, adj, source, acts)
    requires Round(Job(n, keys, adj, source), Final(n, keys, adj, source, acts), round)
    ensures ValidRun(n, keys, adj, source, acts + round)
    ensures Lowered(keys, After(n, keys, adj, source, acts), After(n, keys, adj, source, acts + round))
  {
    hide Feasible, Run, Round, Everywhere, Relaxed, Abs, Lowered, GoesUp;
    var p := Job(n, keys, adj, source);
    var c := Final(n, keys, adj, source, acts);
    RunConcat(p, Initial(p), acts, round);
    EveryRunRelaxed(n, keys, adj, source, acts);
    RealClosed(n, keys, adj, source);
    MinGoesDown(adj, source);
    RoundFolds(p, c, round, RealWalks(adj, source), Down());
    LoweredByRows(p, c, Run(p, c, round));
  }

  lemma {:induction false} RoundsReach(n: nat, keys: seq<Key>, adj: Graph, source: Key, rounds: seq<seq<Action<Dist>>>)
    requires FromStart(n, keys, adj, source, rounds)
    ensures ValidRun(n, keys, adj, source, Flat(rounds))
    ensures Reached(keys, adj, source, After(n, keys, adj, source, Flat(rounds)), |rounds|)
    decreases |rounds|
  {
    hide Feasible, Run, Round, Reached, Relaxed, Abs;
    var p := Job(n, keys, adj, source);
    RoundsRun(p, Initial(p), rounds);
    EveryRunRelaxed(n, keys, adj, source, Flat(rounds));
    if rounds == [] {
      ReachedStart(keys, adj, source, After(n, keys, adj, source, []));
    } else {
      var before, last := rounds[..|rounds| - 1], rounds[|rounds| - 1];
      RoundsReach(n, keys, adj, source, before);
      RoundLowers(n, keys, adj, source, Flat(before), last);
      ReachedNext(keys, adj, source, After(n, keys, adj, source, Flat(before)),
                  After(n, keys, adj, source, Flat(rounds)), |before|);
    }
  }

  /** With non-negative weights, as many rounds as there are vertices, each in any order, reach a
      stable state with the exact distances. */
  lemma RoundsSettle(n: nat, keys: seq<Key>, adj: Graph, source: Key, rounds: seq<seq<Action<Dist>>>)
    requires FromStart(n, keys, adj, source, rounds)
    requires NonNegativeWeights(adj) && |rounds| >= |keys|
    ensures ValidRun(n, keys, adj, source, Flat(rounds))
    ensures Stable(After(n, keys, adj, source, Flat(rounds)))
    ensures forall k :: k in keys ==>
              k in After(n, keys, adj, source, Flat(rounds))
              && IsDistance(adj, source, k, After(n, keys, adj, source, Flat(rounds))[k].value)
  {
    hide Feasible, Run, Round, Reached, Abs, NonNegativeWeights, IsDistance;
    var p := Job(n, keys, adj, source);
    RoundsRun(p, Initial(p), rounds);
    EveryRunRelaxed(n, keys, adj, source, Flat(rounds));
    if rounds == [] {
      assert keys == [];
    } else {
      var before, last := rounds[..|rounds| - 1], rounds[|rounds| - 1];
      RoundsReach(n, keys, adj, source, before);
      RoundLowers(n, keys, adj, source, Flat(before), last);
      StableAfterLast(keys, adj, source, After(n, keys, adj, source, Flat(before)),
                      After(n, keys, adj, source, Flat(rounds)), |before|);
    }
    StableRunIsExact(n, keys, adj, source, Flat(rounds));
  }
}
