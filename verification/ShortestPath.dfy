/** The single-source shortest-path kernel (min-plus over reals with an explicit infinity),
    and what every schedule of it computes. Weights may have any sign. */
module ShortestPath {
  import opened DeltaMonoid
  import opened Protocol
  import opened Refinement
  import opened Runs

  /** `Inf` stands for `imax`, the largest float. */
  datatype Dist = Inf | Fin(d: real)

  datatype Link = Link(end: Key, weight: real)

  type Graph = map<Key, seq<Link>>

  predicate AtMost(a: Dist, b: Dist) { b.Inf? || (a.Fin? && a.d <= b.d) }

  function Min(a: Dist, b: Dist): Dist { if AtMost(a, b) then a else b }

  function Extend(a: Dist, w: real): Dist { if a.Inf? then Inf else Fin(a.d + w) }

  const MinMonoid: Monoid<Dist> := Monoid(Inf, (a, b) => Min(a, b))

  // ---------------------------------------------------------------- the kernel

  function Outputs(links: seq<Link>, delta: Dist): seq<(Key, Dist)> {
    if links == [] then [] else [(links[0].end, Extend(delta, links[0].weight))] + Outputs(links[1..], delta)
  }

  lemma {:induction false} OutputsAt(links: seq<Link>, delta: Dist)
    ensures |Outputs(links, delta)| == |links|
    ensures forall i :: 0 <= i < |links| ==> Outputs(links, delta)[i] == (links[i].end, Extend(delta, links[i].weight))
  {
    if links != [] {
      OutputsAt(links[1..], delta);
    }
  }

  /** g_func: one message per link, carrying the delta extended by the link's weight. */
  method GFunc(links: seq<Link>, delta: Dist) returns (output: seq<(Key, Dist)>)
    ensures |output| == |links|
    ensures forall i :: 0 <= i < |links| ==> output[i] == (links[i].end, Extend(delta, links[i].weight))
    ensures output == Outputs(links, delta)
  {
    output := [];
    for i := 0 to |links|
      invariant |output| == i
      invariant forall j :: 0 <= j < i ==> output[j] == (links[j].end, Extend(delta, links[j].weight))
    {
      output := output + [(links[i].end, Extend(delta, links[i].weight))];
    }
    OutputsAt(links, delta);
  }

  ghost predicate ValidGraph(keys: seq<Key>, adj: Graph) {
    && (forall k :: k in keys <==> k in adj)
    && (forall k, i :: k in adj && 0 <= i < |adj[k]| ==> adj[k][i].end in adj)
  }

  function Job(n: nat, keys: seq<Key>, adj: Graph, source: Key): Program<Dist> {
    Program(n, keys, MinMonoid,
            k => Row(if k == source then Fin(0.0) else Inf, Inf),
            (k, d, v) => if k in adj then Outputs(adj[k], d) else [])
  }

  lemma JobValid(n: nat, keys: seq<Key>, adj: Graph, source: Key)
    requires n > 0 && ValidGraph(keys, adj)
    ensures ValidProgram(Job(n, keys, adj, source))
  {
    var p := Job(n, keys, adj, source);
    forall k, d, v | k in p.keys
      ensures Targets(p, p.g(k, d, v))
    {
      OutputsAt(adj[k], d);
    }
  }

  // ---------------------------------------------------------------- walks and distances

  /** A walk is a list of (vertex, link number) hops; `w` leads from `source` to `k`. */
  ghost predicate IsWalk(adj: Graph, source: Key, w: seq<(Key, nat)>, k: Key) {
    if w == [] then source == k
    else
      var (i, e) := w[|w| - 1];
      i in adj && e < |adj[i]| && adj[i][e].end == k && IsWalk(adj, source, w[..|w| - 1], i)
  }

  ghost function Length(adj: Graph, source: Key, w: seq<(Key, nat)>, k: Key): real
    requires IsWalk(adj, source, w, k)
  {
    if w == [] then 0.0
    else
      var (i, e) := w[|w| - 1];
      Length(adj, source, w[..|w| - 1], i) + adj[i][e].weight
  }

  ghost predicate WalkOfLength(adj: Graph, source: Key, w: seq<(Key, nat)>, k: Key, x: real) {
    IsWalk(adj, source, w, k) && Length(adj, source, w, k) == x
  }

  /** `x` is infinite or the length of a walk from the source to `k`. */
  ghost predicate Real(adj: Graph, source: Key, k: Key, x: Dist) {
    x.Fin? ==> exists w :: WalkOfLength(adj, source, w, k, x.d)
  }

  /** `x` is the exact distance: no walk is shorter, and a finite `x` is attained. */
  ghost predicate IsDistance(adj: Graph, source: Key, k: Key, x: Dist) {
    && Real(adj, source, k, x)
    && forall w :: IsWalk(adj, source, w, k) ==> AtMost(x, Fin(Length(adj, source, w, k)))
  }

  lemma ExtendReal(adj: Graph, source: Key, i: Key, e: nat, x: Dist)
    requires i in adj && e < |adj[i]| && Real(adj, source, i, x)
    ensures Real(adj, source, adj[i][e].end, Extend(x, adj[i][e].weight))
  {
    if x.Fin? {
      var w :| WalkOfLength(adj, source, w, i, x.d);
      var w' := w + [(i, e)];
      assert w'[..|w'| - 1] == w;
      assert WalkOfLength(adj, source, w', adj[i][e].end, x.d + adj[i][e].weight);
    }
  }

  ghost function RealWalks(adj: Graph, source: Key): (Key, Dist) -> bool {
    (k: Key, x: Dist) => Real(adj, source, k, x)
  }

  lemma RealClosed(n: nat, keys: seq<Key>, adj: Graph, source: Key)
    requires n > 0 && ValidGraph(keys, adj)
    ensures Closed(Job(n, keys, adj, source), RealWalks(adj, source))
  {
    var p := Job(n, keys, adj, source);
    forall k, d, v | k in p.keys && Real(adj, source, k, d)
      ensures PairsHold(p.g(k, d, v), RealWalks(adj, source))
    {
      OutputsAt(adj[k], d);
      forall e | 0 <= e < |adj[k]|
        ensures Real(adj, source, adj[k][e].end, Extend(d, adj[k][e].weight))
      {
        ExtendReal(adj, source, k, e, d);
      }
    }
  }

  // ---------------------------------------------------------------- the invariant

  function Best(r: Row<Dist>): Dist { Min(r.value, r.delta) }

  /** Every link is relaxed, if what is still pending at its end is counted. */
  ghost predicate Relaxed(keys: seq<Key>, adj: Graph, source: Key, t: Table<Dist>) {
    && (forall k :: k in keys <==> k in t)
    && (source in t ==> AtMost(Best(t[source]), Fin(0.0)))
    && forall i, e :: i in t && i in adj && 0 <= e < |adj[i]| && adj[i][e].end in t ==>
         AtMost(Best(t[adj[i][e].end]), Extend(t[i].value, adj[i][e].weight))
  }

  lemma {:induction false} AtLowers(links: seq<Link>, delta: Dist, e: nat)
    requires e < |links|
    ensures AtMost(At(MinMonoid, Outputs(links, delta), links[e].end), Extend(delta, links[e].weight))
  {
    assert Outputs(links, delta)[1..] == Outputs(links[1..], delta);
    if e > 0 {
      AtLowers(links[1..], delta, e - 1);
    }
  }

  lemma BestStep(n: nat, keys: seq<Key>, adj: Graph, source: Key, t: Table<Dist>, t': Table<Dist>,
                 k: Key, d: Dist, rest: Dist, j: Key)
    requires TableStep(Job(n, keys, adj, source), t, t', k, d, rest) && j in t && k in adj
    ensures t'.Keys == t.Keys
    ensures t'[j].value == if j == k then Min(t[k].value, d) else t[j].value
    ensures AtMost(Best(t'[j]), Best(t[j]))
    ensures AtMost(Best(t'[j]), At(MinMonoid, Outputs(adj[k], d), j))
  {
  }

  lemma RelaxedStep(n: nat, keys: seq<Key>, adj: Graph, source: Key, t: Table<Dist>, t': Table<Dist>,
                    k: Key, d: Dist, rest: Dist)
    requires ValidGraph(keys, adj) && Relaxed(keys, adj, source, t)
    requires TableStep(Job(n, keys, adj, source), t, t', k, d, rest)
    ensures Relaxed(keys, adj, source, t')
  {
    forall j | j in t
      ensures t'.Keys == t.Keys && AtMost(Best(t'[j]), Best(t[j]))
    {
      BestStep(n, keys, adj, source, t, t', k, d, rest, j);
    }
    BestStep(n, keys, adj, source, t, t', k, d, rest, k);
    forall i, e | i in t' && i in adj && 0 <= e < |adj[i]| && adj[i][e].end in t'
      ensures AtMost(Best(t'[adj[i][e].end]), Extend(t'[i].value, adj[i][e].weight))
    {
      var j := adj[i][e].end;
      BestStep(n, keys, adj, source, t, t', k, d, rest, j);
      BestStep(n, keys, adj, source, t, t', k, d, rest, i);
      if i == k {
        AtLowers(adj[k], d, e);
      }
    }
  }

  /** No pending delta would change a value. A table without residual is stable. */
  ghost predicate Stable(t: Table<Dist>) {
    forall k :: k in t ==> Best(t[k]) == t[k].value
  }

  lemma {:induction false} StableBelowWalks(
    keys: seq<Key>, adj: Graph, source: Key, t: Table<Dist>, w: seq<(Key, nat)>, k: Key)
    requires ValidGraph(keys, adj) && Relaxed(keys, adj, source, t) && Stable(t)
    requires k in keys && IsWalk(adj, source, w, k)
    ensures AtMost(t[k].value, Fin(Length(adj, source, w, k)))
    decreases |w|
  {
    if w != [] {
      var (i, e) := w[|w| - 1];
      StableBelowWalks(keys, adj, source, t, w[..|w| - 1], i);
    }
  }

  // ---------------------------------------------------------------- the theorems

  ghost predicate ValidRun(n: nat, keys: seq<Key>, adj: Graph, source: Key, acts: seq<Action<Dist>>) {
    && n > 0
    && ValidGraph(keys, adj)
    && ValidProgram(Job(n, keys, adj, source))
    && Feasible(Job(n, keys, adj, source), Initial(Job(n, keys, adj, source)), acts)
  }

  ghost function Final(n: nat, keys: seq<Key>, adj: Graph, source: Key, acts: seq<Action<Dist>>): Cluster<Dist>
    requires ValidRun(n, keys, adj, source, acts)
  {
    Run(Job(n, keys, adj, source), Initial(Job(n, keys, adj, source)), acts)
  }

  ghost function After(n: nat, keys: seq<Key>, adj: Graph, source: Key, acts: seq<Action<Dist>>): Table<Dist>
    requires ValidRun(n, keys, adj, source, acts)
  {
    Abs(Job(n, keys, adj, source), Final(n, keys, adj, source, acts))
  }

  lemma InitiallyReal(n: nat, keys: seq<Key>, adj: Graph, source: Key)
    requires n > 0
    ensures Everywhere(Initial(Job(n, keys, adj, source)), RealWalks(adj, source))
  {
    assert WalkOfLength(adj, source, [], source, 0.0);
    InitialHolds(Job(n, keys, adj, source), RealWalks(adj, source));
  }

  lemma StartRelaxed(keys: seq<Key>, adj: Graph, source: Key, t: Table<Dist>)
    requires t == map k | k in keys :: Row(if k == source then Fin(0.0) else Inf, Inf)
    ensures Relaxed(keys, adj, source, t)
  {
  }

  lemma InitiallyRelaxed(n: nat, keys: seq<Key>, adj: Graph, source: Key)
    requires ValidProgram(Job(n, keys, adj, source))
    ensures Relaxed(keys, adj, source, Abs(Job(n, keys, adj, source), Initial(Job(n, keys, adj, source))))
  {
    InitialAbs(Job(n, keys, adj, source));
    StartRelaxed(keys, adj, source, Abs(Job(n, keys, adj, source), Initial(Job(n, keys, adj, source))));
  }

  ghost function RelaxedInv(keys: seq<Key>, adj: Graph, source: Key): Table<Dist> -> bool {
    (t: Table<Dist>) => Relaxed(keys, adj, source, t)
  }

  lemma RelaxedInductive(n: nat, keys: seq<Key>, adj: Graph, source: Key)
    requires ValidGraph(keys, adj)
    ensures Inductive(Job(n, keys, adj, source), RealWalks(adj, source), RelaxedInv(keys, adj, source))
  {
    forall t, t', k, d, rest | Relaxed(keys, adj, source, t) && TableStep(Job(n, keys, adj, source), t, t', k, d, rest)
      ensures Relaxed(keys, adj, source, t')
    {
      RelaxedStep(n, keys, adj, source, t, t', k, d, rest);
    }
  }

  /** Under every schedule: every finite distance held anywhere is the length of a real walk
      from the source, and every link is relaxed up to what is pending. */
  lemma EveryRunRelaxed(n: nat, keys: seq<Key>, adj: Graph, source: Key, acts: seq<Action<Dist>>)
    requires ValidRun(n, keys, adj, source, acts)
    ensures Everywhere(Final(n, keys, adj, source, acts), RealWalks(adj, source))
    ensures TableHolds(After(n, keys, adj, source, acts), RealWalks(adj, source))
    ensures Relaxed(keys, adj, source, After(n, keys, adj, source, acts))
  {
    var p := Job(n, keys, adj, source);
    RealClosed(n, keys, adj, source);
    RelaxedInductive(n, keys, adj, source);
    InitiallyReal(n, keys, adj, source);
    InitiallyRelaxed(n, keys, adj, source);
    RunInvariant(p, Initial(p), acts, RealWalks(adj, source), RelaxedInv(keys, adj, source));
  }

  lemma StableTableIsExact(keys: seq<Key>, adj: Graph, source: Key, t: Table<Dist>)
    requires ValidGraph(keys, adj) && Relaxed(keys, adj, source, t)
    requires TableHolds(t, RealWalks(adj, source)) && Stable(t)
    ensures t.Keys == set k | k in keys
    ensures forall k :: k in keys ==> IsDistance(adj, source, k, t[k].value)
  {
    forall k | k in keys
      ensures IsDistance(adj, source, k, t[k].value)
    {
      assert RealWalks(adj, source)(k, t[k].value);
      forall w | IsWalk(adj, source, w, k)
        ensures AtMost(t[k].value, Fin(Length(adj, source, w, k)))
      {
        StableBelowWalks(keys, adj, source, t, w, k);
      }
    }
  }

  /** Once nothing pending would change a value, every value is the exact distance. */
  lemma StableRunIsExact(n: nat, keys: seq<Key>, adj: Graph, source: Key, acts: seq<Action<Dist>>)
    requires ValidRun(n, keys, adj, source, acts)
    requires Stable(After(n, keys, adj, source, acts))
    ensures After(n, keys, adj, source, acts).Keys == set k | k in keys
    ensures forall k :: k in keys ==> IsDistance(adj, source, k, After(n, keys, adj, source, acts)[k].value)
  {
    EveryRunRelaxed(n, keys, adj, source, acts);
    StableTableIsExact(keys, adj, source, After(n, keys, adj, source, acts));
  }

  /** The table is stable, with the values `x`. */
  ghost predicate Settled(keys: seq<Key>, x: map<Key, Dist>, t: Table<Dist>) {
    && t.Keys == x.Keys
    && forall k :: k in t ==> t[k].value == x[k] && AtMost(x[k], t[k].delta)
  }

  lemma {:induction false} AtBounded(links: seq<Link>, delta: Dist, j: Key, b: Dist)
    requires forall e :: 0 <= e < |links| && links[e].end == j ==> AtMost(b, Extend(delta, links[e].weight))
    ensures AtMost(b, At(MinMonoid, Outputs(links, delta), j))
  {
    if links != [] {
      AtBounded(links[1..], delta, j, b);
    }
  }

  lemma SettledStep(n: nat, keys: seq<Key>, adj: Graph, source: Key, x: map<Key, Dist>,
                    t: Table<Dist>, t': Table<Dist>, k: Key, d: Dist, rest: Dist)
    requires ValidGraph(keys, adj) && Relaxed(keys, adj, source, t) && Settled(keys, x, t)
    requires TableStep(Job(n, keys, adj, source), t, t', k, d, rest)
    ensures Settled(keys, x, t')
  {
    forall j | j in t
      ensures t'[j].value == x[j] && AtMost(x[j], t'[j].delta)
    {
      forall e | 0 <= e < |adj[k]| && adj[k][e].end == j
        ensures AtMost(x[j], Extend(d, adj[k][e].weight))
      {
        assert AtMost(Best(t[adj[k][e].end]), Extend(t[k].value, adj[k][e].weight));
      }
      AtBounded(adj[k], d, j, x[j]);
      BestStep(n, keys, adj, source, t, t', k, d, rest, j);
    }
  }

  function ValuesOf(t: Table<Dist>): map<Key, Dist> { map k | k in t :: t[k].value }

  ghost function SettledInv(keys: seq<Key>, adj: Graph, source: Key, x: map<Key, Dist>): Table<Dist> -> bool {
    (t: Table<Dist>) => Relaxed(keys, adj, source, t) && Settled(keys, x, t)
  }

  lemma SettledInductive(n: nat, keys: seq<Key>, adj: Graph, source: Key, x: map<Key, Dist>)
    requires ValidGraph(keys, adj)
    ensures Inductive(Job(n, keys, adj, source), RealWalks(adj, source), SettledInv(keys, adj, source, x))
  {
    forall t, t', k, d, rest
      | Relaxed(keys, adj, source, t) && Settled(keys, x, t) && TableStep(Job(n, keys, adj, source), t, t', k, d, rest)
      ensures Relaxed(keys, adj, source, t') && Settled(keys, x, t')
    {
      RelaxedStep(n, keys, adj, source, t, t', k, d, rest);
      SettledStep(n, keys, adj, source, x, t, t', k, d, rest);
    }
  }

  lemma SettledMeansStable(keys: seq<Key>, adj: Graph, source: Key, x: map<Key, Dist>, t: Table<Dist>)
    requires Relaxed(keys, adj, source, t)
    ensures Settled(keys, x, t) <==> Stable(t) && ValuesOf(t) == x
  {
  }

  /** A stable cluster never changes a value again, whatever it goes on to do. */
  lemma StableForever(n: nat, keys: seq<Key>, adj: Graph, source: Key, acts: seq<Action<Dist>>, more: seq<Action<Dist>>)
    requires ValidRun(n, keys, adj, source, acts) && Stable(After(n, keys, adj, source, acts))
    requires Feasible(Job(n, keys, adj, source), Final(n, keys, adj, source, acts), more)
    ensures ValidRun(n, keys, adj, source, acts + more)
    ensures Stable(After(n, keys, adj, source, acts + more))
    ensures ValuesOf(After(n, keys, adj, source, acts + more)) == ValuesOf(After(n, keys, adj, source, acts))
  {
    var p, c := Job(n, keys, adj, source), Final(n, keys, adj, source, acts);
    var x := ValuesOf(After(n, keys, adj, source, acts));
    EveryRunRelaxed(n, keys, adj, source, acts);
    RealClosed(n, keys, adj, source);
    SettledInductive(n, keys, adj, source, x);
    SettledMeansStable(keys, adj, source, x, Abs(p, c));
    RunInvariant(p, c, more, RealWalks(adj, source), SettledInv(keys, adj, source, x));
    SettledMeansStable(keys, adj, source, x, Abs(p, Run(p, c, more)));
    RunConcat(p, Initial(p), acts, more);
  }
}
