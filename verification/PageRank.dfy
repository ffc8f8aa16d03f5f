/** The PageRank kernel over exact reals, and what every schedule of it computes. */
module PageRank {
  import opened Collections
  import opened DeltaMonoid
  import opened Protocol
  import opened Refinement
  import opened Runs

  type Graph = map<Key, seq<Key>>

  /** Every link leads to a vertex of the graph, and `keys` lists the vertices once each. */
  ghost predicate ValidGraph(keys: seq<Key>, adj: Graph) {
    && NoDup(keys)
    && (forall k :: k in keys <==> k in adj)
    && (forall k, i :: k in adj && 0 <= i < |adj[k]| ==> adj[k][i] in adj)
  }

  // ---------------------------------------------------------------- the kernel

  const Plus: Monoid<real> := Monoid(0.0, (a, b) => a + b)

  function Share(size: nat, delta: real): real
    requires size > 0
  {
    delta * 0.8 / size as real
  }

  /** A vertex without links sends nothing, although the C++ still divides by its size. */
  function Outputs(adj: Graph, k: Key, delta: real): seq<(Key, real)> {
    if k !in adj || adj[k] == [] then [] else Spread(adj[k], Share(|adj[k]|, delta))
  }

  /** g_func: one message per out-link, all carrying the same share. */
  method GFunc(data: seq<Key>, delta: real) returns (output: seq<(Key, real)>)
    ensures |output| == |data|
    ensures forall i :: 0 <= i < |data| ==> output[i] == (data[i], Share(|data|, delta))
    ensures forall k: Key, adj: Graph :: k in adj && adj[k] == data ==> output == Outputs(adj, k, delta)
  {
    output := [];
    if |data| == 0 { return; }
    var outv := Share(|data|, delta);
    for i := 0 to |data|
      invariant |output| == i
      invariant forall j :: 0 <= j < i ==> output[j] == (data[j], outv)
    {
      output := output + [(data[i], outv)];
    }
    SpreadAt(data, outv);
    assert output == Spread(data, outv);
  }

  function Job(n: nat, keys: seq<Key>, adj: Graph): Program<real> {
    Program(n, keys, Plus, _ => Row(0.2, 0.0), (k, d, v) => Outputs(adj, k, d))
  }

  lemma JobValid(n: nat, keys: seq<Key>, adj: Graph)
    requires n > 0 && ValidGraph(keys, adj)
    ensures ValidProgram(Job(n, keys, adj))
  {
    var p := Job(n, keys, adj);
    forall k, d, v | k in p.keys
      ensures Targets(p, p.g(k, d, v))
    {
      if adj[k] != [] {
        SpreadAt(adj[k], Share(|adj[k]|, d));
      }
    }
  }

  // ---------------------------------------------------------------- sums over the vertices

  type Values = map<Key, real>

  ghost predicate Covers(ks: seq<Key>, x: Values) { forall k :: k in ks ==> k in x }

  ghost function Total(ks: seq<Key>, x: Values): real
    requires Covers(ks, x)
  {
    if ks == [] then 0.0 else x[ks[0]] + Total(ks[1..], x)
  }

  lemma {:induction false} TotalAdd(ks: seq<Key>, f: Values, g: Values, h: Values)
    requires Covers(ks, f) && Covers(ks, g) && Covers(ks, h)
    requires forall k :: k in ks ==> f[k] == g[k] + h[k]
    ensures Total(ks, f) == Total(ks, g) + Total(ks, h)
  {
    if ks != [] {
      TotalAdd(ks[1..], f, g, h);
    }
  }

  lemma {:induction false} TotalDamped(ks: seq<Key>, f: Values, g: Values, h: Values)
    requires Covers(ks, f) && Covers(ks, g) && Covers(ks, h)
    requires forall k :: k in ks ==> f[k] == 0.8 * (g[k] - h[k])
    ensures Total(ks, f) == 0.8 * (Total(ks, g) - Total(ks, h))
  {
    if ks != [] {
      TotalDamped(ks[1..], f, g, h);
    }
  }

  lemma {:induction false} TotalSame(ks: seq<Key>, f: Values, g: Values)
    requires Covers(ks, f) && Covers(ks, g) && forall k :: k in ks ==> f[k] == g[k]
    ensures Total(ks, f) == Total(ks, g)
  {
    if ks != [] {
      TotalSame(ks[1..], f, g);
    }
  }

  lemma {:induction false} TotalZero(ks: seq<Key>, f: Values)
    requires Covers(ks, f) && forall k :: k in ks ==> f[k] == 0.0
    ensures Total(ks, f) == 0.0
  {
    if ks != [] {
      TotalZero(ks[1..], f);
    }
  }

  lemma {:induction false} TotalBase(ks: seq<Key>, f: Values)
    requires Covers(ks, f) && forall k :: k in ks ==> f[k] == 0.2
    ensures Total(ks, f) == 0.2 * |ks| as real
  {
    if ks != [] {
      TotalBase(ks[1..], f);
    }
  }

  lemma {:induction false} TotalMonotone(ks: seq<Key>, f: Values, g: Values)
    requires Covers(ks, f) && Covers(ks, g)
    requires forall k :: k in ks ==> f[k] <= g[k]
    ensures Total(ks, f) <= Total(ks, g)
    ensures Total(ks, f) == Total(ks, g) ==> forall k :: k in ks ==> f[k] == g[k]
  {
    if ks != [] {
      TotalMonotone(ks[1..], f, g);
      assert forall k :: k in ks ==> k == ks[0] || k in ks[1..];
    }
  }

  lemma {:induction false} TotalOne(ks: seq<Key>, f: Values, t: Key, x: real)
    requires NoDup(ks) && Covers(ks, f) && forall k :: k in ks ==> f[k] == One(Plus, t, x, k)
    ensures Total(ks, f) == if t in ks then x else 0.0
  {
    if ks != [] {
      TotalOne(ks[1..], f, t, x);
      if ks[0] == t { assert t !in ks[1..]; }
    }
  }

  /** What each vertex of `ks` receives of the pairs `kv`. */
  ghost function Arrivals(ks: seq<Key>, kv: seq<(Key, real)>): (x: Values)
    ensures Covers(ks, x)
  {
    map k | k in ks :: At(Plus, kv, k)
  }

  /** All of what is sent arrives somewhere. */
  lemma {:induction false} TotalSpread(ks: seq<Key>, targets: seq<Key>, x: real)
    requires NoDup(ks) && forall i :: 0 <= i < |targets| ==> targets[i] in ks
    ensures Total(ks, Arrivals(ks, Spread(targets, x))) == Times(|targets|, x)
    decreases |targets|
  {
    var f := Arrivals(ks, Spread(targets, x));
    if targets == [] {
      TotalZero(ks, f);
    } else {
      var g := map k | k in ks :: One(Plus, targets[0], x, k);
      var h := Arrivals(ks, Spread(targets[1..], x));
      forall k | k in ks
        ensures f[k] == g[k] + h[k]
      {
        assert Spread(targets, x)[1..] == Spread(targets[1..], x);
      }
      TotalAdd(ks, f, g, h);
      TotalOne(ks, g, targets[0], x);
      TotalSpread(ks, targets[1..], x);
    }
  }

  function Times(n: nat, x: real): real { if n == 0 then 0.0 else x + Times(n - 1, x) }

  lemma Distribute(a: real, x: real)
    ensures (a + 1.0) * x == x + a * x
  {
  }

  lemma {:induction false} TimesIsProduct(n: nat, x: real)
    ensures Times(n, x) == n as real * x
  {
    if n > 0 {
      TimesIsProduct(n - 1, x);
      Distribute((n - 1) as real, x);
    }
  }

  // ---------------------------------------------------------------- flow along the links

  /** What `j` receives from `i` when `i` spreads `x`. */
  function Edge(adj: Graph, i: Key, j: Key, x: real): real { At(Plus, Outputs(adj, i, x), j) }

  /** What leaves `i` when it spreads `x`: 0.8 of it, or nothing for a dangling vertex. */
  function Flow(adj: Graph, i: Key, x: real): real {
    if i !in adj || adj[i] == [] then 0.0 else 0.8 * x
  }

  lemma ShareLinear(size: nat, a: real, b: real)
    requires size > 0
    ensures Share(size, a + b) == Share(size, a) + Share(size, b)
    ensures size as real * Share(size, a) == 0.8 * a
    ensures a >= 0.0 ==> Share(size, a) >= 0.0
  {
  }

  lemma SharesAddUp(size: nat, x: real)
    requires size > 0
    ensures Times(size, Share(size, x)) == 0.8 * x
  {
    TimesIsProduct(size, Share(size, x));
    ShareLinear(size, x, x);
  }

  lemma {:induction false} SpreadLinear(targets: seq<Key>, a: real, b: real, j: Key)
    ensures At(Plus, Spread(targets, a + b), j) == At(Plus, Spread(targets, a), j) + At(Plus, Spread(targets, b), j)
    ensures a >= 0.0 ==> At(Plus, Spread(targets, a), j) >= 0.0
  {
    if targets != [] {
      SpreadLinear(targets[1..], a, b, j);
      assert Spread(targets, a)[1..] == Spread(targets[1..], a);
      assert Spread(targets, b)[1..] == Spread(targets[1..], b);
      assert Spread(targets, a + b)[1..] == Spread(targets[1..], a + b);
    }
  }

  lemma EdgeLinear(adj: Graph, i: Key, j: Key, a: real, b: real)
    ensures Edge(adj, i, j, a + b) == Edge(adj, i, j, a) + Edge(adj, i, j, b)
    ensures a >= 0.0 ==> Edge(adj, i, j, a) >= 0.0
  {
    if i in adj && adj[i] != [] {
      ShareLinear(|adj[i]|, a, b);
      SpreadLinear(adj[i], Share(|adj[i]|, a), Share(|adj[i]|, b), j);
    }
  }

  lemma TotalEdge(keys: seq<Key>, adj: Graph, i: Key, x: real)
    requires ValidGraph(keys, adj)
    ensures Total(keys, Arrivals(keys, Outputs(adj, i, x))) == Flow(adj, i, x)
  {
    if i !in adj || adj[i] == [] {
      TotalZero(keys, Arrivals(keys, Outputs(adj, i, x)));
    } else {
      TotalSpread(keys, adj[i], Share(|adj[i]|, x));
      SharesAddUp(|adj[i]|, x);
    }
  }

  /** The sum over the vertices `i` in `ks` of what `j` receives when `i` spreads `x[i]`. */
  function Inflow(ks: seq<Key>, adj: Graph, j: Key, x: Values): real
    requires Covers(ks, x)
  {
    if ks == [] then 0.0 else Edge(adj, ks[0], j, x[ks[0]]) + Inflow(ks[1..], adj, j, x)
  }

  lemma {:induction false} InflowUpdate(ks: seq<Key>, adj: Graph, j: Key, x: Values, k: Key, d: real)
    requires NoDup(ks) && Covers(ks, x) && k in x
    ensures Inflow(ks, adj, j, x[k := x[k] + d]) == Inflow(ks, adj, j, x) + if k in ks then Edge(adj, k, j, d) else 0.0
  {
    if ks != [] {
      InflowUpdate(ks[1..], adj, j, x, k, d);
      if ks[0] == k {
        assert k !in ks[1..];
        EdgeLinear(adj, k, j, x[k], d);
      }
    }
  }

  lemma EdgeMonotone(adj: Graph, i: Key, j: Key, a: real, b: real)
    requires a <= b
    ensures Edge(adj, i, j, a) <= Edge(adj, i, j, b)
  {
    EdgeLinear(adj, i, j, b - a, a);
    assert b - a + a == b;
  }

  lemma {:induction false} InflowMonotone(ks: seq<Key>, adj: Graph, j: Key, x: Values, y: Values)
    requires Covers(ks, x) && Covers(ks, y) && forall k :: k in ks ==> x[k] <= y[k]
    ensures Inflow(ks, adj, j, x) <= Inflow(ks, adj, j, y)
  {
    hide Edge;
    if ks != [] {
      EdgeMonotone(adj, ks[0], j, x[ks[0]], y[ks[0]]);
      InflowMonotone(ks[1..], adj, j, x, y);
    }
  }

  ghost function Inflows(keys: seq<Key>, ks: seq<Key>, adj: Graph, x: Values): (y: Values)
    requires Covers(ks, x)
    ensures Covers(keys, y)
  {
    map j | j in keys :: Inflow(ks, adj, j, x)
  }

  ghost function Outflows(ks: seq<Key>, adj: Graph, x: Values): (y: Values)
    requires Covers(ks, x)
    ensures Covers(ks, y)
  {
    map i | i in ks :: Flow(adj, i, x[i])
  }

  /** Summing the inflows over all receivers gives the outflows summed over all senders. */
  lemma {:induction false} TotalInflow(keys: seq<Key>, ks: seq<Key>, adj: Graph, x: Values)
    requires ValidGraph(keys, adj) && Covers(ks, x)
    ensures Total(keys, Inflows(keys, ks, adj, x)) == Total(ks, Outflows(ks, adj, x))
    decreases |ks|
  {
    if ks == [] {
      TotalZero(keys, Inflows(keys, ks, adj, x));
    } else {
      var i, rest := ks[0], ks[1..];
      TotalAdd(keys, Inflows(keys, ks, adj, x), Arrivals(keys, Outputs(adj, i, x[i])), Inflows(keys, rest, adj, x));
      TotalEdge(keys, adj, i, x[i]);
      TotalInflow(keys, rest, adj, x);
      TotalSame(rest, Outflows(ks, adj, x), Outflows(rest, adj, x));
    }
  }

  // ---------------------------------------------------------------- the invariant

  function ValuesOf(t: Table<real>): Values { map k | k in t :: t[k].value }

  /** v[j] + residual[j] == 0.2 + the sum over links i -> j of 0.8 * v[i] / deg(i). */
  ghost predicate Balanced(keys: seq<Key>, adj: Graph, t: Table<real>) {
    && (forall k :: k in keys <==> k in t)
    && forall j :: j in keys ==> t[j].value + t[j].delta == 0.2 + Inflow(keys, adj, j, ValuesOf(t))
  }

  /** A non-negative solution of the PageRank equation. */
  ghost predicate Solves(keys: seq<Key>, adj: Graph, x: Values) {
    && (forall k :: k in keys <==> k in x)
    && (forall k :: k in keys ==> x[k] >= 0.0)
    && forall j :: j in keys ==> x[j] == 0.2 + Inflow(keys, adj, j, x)
  }

  ghost predicate Below(keys: seq<Key>, t: Table<real>, x: Values) {
    forall k :: k in keys && k in t && k in x ==> t[k].value <= x[k]
  }

  lemma StepRow(
    n: nat, keys: seq<Key>, adj: Graph, t: Table<real>, t': Table<real>, k: Key, d: real, rest: real, j: Key)
    requires TableStep(Job(n, keys, adj), t, t', k, d, rest) && j in t
    ensures t'.Keys == t.Keys
    ensures t'[j].value == if j == k then t[k].value + d else t[j].value
    ensures t'[j].value + t'[j].delta == t[j].value + t[j].delta + Edge(adj, k, j, d)
  {
  }

  lemma BalancedAfter(keys: seq<Key>, adj: Graph, t: Table<real>, t': Table<real>, k: Key, d: real)
    requires NoDup(keys) && Balanced(keys, adj, t) && k in t && t'.Keys == t.Keys
    requires forall j :: j in t ==> t'[j].value == if j == k then t[k].value + d else t[j].value
    requires forall j :: j in t ==> t'[j].value + t'[j].delta == t[j].value + t[j].delta + Edge(adj, k, j, d)
    ensures Balanced(keys, adj, t')
  {
    var v := ValuesOf(t);
    assert ValuesOf(t') == v[k := v[k] + d];
    forall j | j in keys
      ensures t'[j].value + t'[j].delta == 0.2 + Inflow(keys, adj, j, ValuesOf(t'))
    {
      InflowUpdate(keys, adj, j, v, k, d);
    }
  }

  lemma BalancedStep(n: nat, keys: seq<Key>, adj: Graph, t: Table<real>, t': Table<real>, k: Key, d: real, rest: real)
    requires ValidGraph(keys, adj) && Balanced(keys, adj, t)
    requires TableStep(Job(n, keys, adj), t, t', k, d, rest)
    ensures Balanced(keys, adj, t')
  {
    forall j | j in t
      ensures t'.Keys == t.Keys
      ensures t'[j].value == if j == k then t[k].value + d else t[j].value
      ensures t'[j].value + t'[j].delta == t[j].value + t[j].delta + Edge(adj, k, j, d)
    {
      StepRow(n, keys, adj, t, t', k, d, rest, j);
    }
    BalancedAfter(keys, adj, t, t', k, d);
  }

  lemma BelowStep(
    n: nat, keys: seq<Key>, adj: Graph, t: Table<real>, t': Table<real>, k: Key, d: real, rest: real, x: Values)
    requires ValidGraph(keys, adj) && Balanced(keys, adj, t) && Solves(keys, adj, x) && Below(keys, t, x)
    requires TableStep(Job(n, keys, adj), t, t', k, d, rest) && rest >= 0.0
    ensures Below(keys, t', x)
  {
    InflowMonotone(keys, adj, k, ValuesOf(t), x);
  }

  ghost predicate NonNegativeTable(t: Table<real>) {
    forall k :: k in t ==> t[k].delta >= 0.0 && t[k].value >= 0.0
  }

  ghost function NonNegative(): (Key, real) -> bool { (k, y) => y >= 0.0 }

  lemma NonNegativeClosed(n: nat, keys: seq<Key>, adj: Graph)
    requires n > 0 && ValidGraph(keys, adj)
    ensures Closed(Job(n, keys, adj), NonNegative())
  {
    var p := Job(n, keys, adj);
    forall k, d, v | k in p.keys && d >= 0.0
      ensures PairsHold(p.g(k, d, v), NonNegative())
    {
      if adj[k] != [] {
        ShareLinear(|adj[k]|, d, d);
        SpreadAt(adj[k], Share(|adj[k]|, d));
      }
    }
  }

  lemma InitiallyBalanced(n: nat, keys: seq<Key>, adj: Graph)
    requires n > 0 && ValidGraph(keys, adj)
    ensures ValidProgram(Job(n, keys, adj))
    ensures Balanced(keys, adj, Abs(Job(n, keys, adj), Initial(Job(n, keys, adj))))
  {
    JobValid(n, keys, adj);
    var p := Job(n, keys, adj);
    InitialAbs(p);
    var t := Abs(p, Initial(p));
    forall j | j in keys
      ensures Inflow(keys, adj, j, ValuesOf(t)) == 0.0
    {
      InflowZero(keys, adj, j, ValuesOf(t));
    }
  }

  lemma {:induction false} InflowZero(ks: seq<Key>, adj: Graph, j: Key, x: Values)
    requires Covers(ks, x) && forall k :: k in ks ==> x[k] == 0.0
    ensures Inflow(ks, adj, j, x) == 0.0
  {
    if ks != [] {
      EdgeLinear(adj, ks[0], j, 0.0, 0.0);
      InflowZero(ks[1..], adj, j, x);
    }
  }

  // ---------------------------------------------------------------- the theorems

  ghost function After(n: nat, keys: seq<Key>, adj: Graph, acts: seq<Action<real>>): (t: Table<real>)
    requires ValidRun(n, keys, adj, acts)
  {
    Abs(Job(n, keys, adj), Run(Job(n, keys, adj), Initial(Job(n, keys, adj)), acts))
  }

  ghost predicate ValidRun(n: nat, keys: seq<Key>, adj: Graph, acts: seq<Action<real>>) {
    && n > 0
    && ValidGraph(keys, adj)
    && ValidProgram(Job(n, keys, adj))
    && Feasible(Job(n, keys, adj), Initial(Job(n, keys, adj)), acts)
  }

  /** Under every schedule: nothing anywhere is negative and the balance equation holds. */
  lemma EveryRunBalanced(n: nat, keys: seq<Key>, adj: Graph, acts: seq<Action<real>>)
    requires ValidRun(n, keys, adj, acts)
    ensures Everywhere(Run(Job(n, keys, adj), Initial(Job(n, keys, adj)), acts), NonNegative())
    ensures NonNegativeTable(After(n, keys, adj, acts))
    ensures Balanced(keys, adj, After(n, keys, adj, acts))
  {
    var p := Job(n, keys, adj);
    var J := (t: Table<real>) => Balanced(keys, adj, t);
    forall t, t', k, d, rest | J(t) && TableStep(p, t, t', k, d, rest)
      ensures J(t')
    {
      BalancedStep(n, keys, adj, t, t', k, d, rest);
    }
    NonNegativeClosed(n, keys, adj);
    InitialHolds(p, NonNegative());
    InitiallyBalanced(n, keys, adj);
    RunInvariant(p, Initial(p), acts, NonNegative(), J);
    var t := After(n, keys, adj, acts);
    assert forall k :: k in t ==> NonNegative()(k, t[k].delta) && NonNegative()(k, t[k].value);
  }

  /** Under every schedule the values stay below every non-negative solution. */
  lemma EveryRunBelow(n: nat, keys: seq<Key>, adj: Graph, acts: seq<Action<real>>, x: Values)
    requires ValidRun(n, keys, adj, acts) && Solves(keys, adj, x)
    ensures Below(keys, After(n, keys, adj, acts), x)
  {
    var p := Job(n, keys, adj);
    var J := (t: Table<real>) => Balanced(keys, adj, t) && Below(keys, t, x);
    forall t, t', k, d, rest | J(t) && TableStep(p, t, t', k, d, rest) && NonNegative()(k, rest)
      ensures J(t')
    {
      BalancedStep(n, keys, adj, t, t', k, d, rest);
      BelowStep(n, keys, adj, t, t', k, d, rest, x);
    }
    NonNegativeClosed(n, keys, adj);
    InitialHolds(p, NonNegative());
    InitiallyBalanced(n, keys, adj);
    InitialAbs(p);
    RunInvariant(p, Initial(p), acts, NonNegative(), J);
  }

  function DeltasOf(t: Table<real>): Values { map k | k in t :: t[k].delta }

  /** The values of the vertices without out-links. */
  function DanglingOf(adj: Graph, t: Table<real>): Values {
    map k | k in t :: if k in adj && adj[k] == [] then t[k].value else 0.0
  }

  /** Mass conservation, a consequence of the balance equation alone. */
  lemma Conservation(keys: seq<Key>, adj: Graph, t: Table<real>)
    requires ValidGraph(keys, adj) && Balanced(keys, adj, t)
    ensures 0.2 * Total(keys, ValuesOf(t)) + 0.8 * Total(keys, DanglingOf(adj, t)) + Total(keys, DeltasOf(t))
         == 0.2 * |keys| as real
  {
    hide Total;
    var x, r := ValuesOf(t), DeltasOf(t);
    var both, base := map k | k in keys :: x[k] + r[k], map k | k in keys :: 0.2;
    var inflows, outflows := Inflows(keys, keys, adj, x), Outflows(keys, adj, x);
    TotalAdd(keys, both, x, r);
    TotalAdd(keys, both, base, inflows);
    TotalBase(keys, base);
    TotalInflow(keys, keys, adj, x);
    TotalDamped(keys, outflows, x, DanglingOf(adj, t));
  }

  lemma {:induction false} TotalNonNegative(ks: seq<Key>, f: Values)
    requires Covers(ks, f) && forall k :: k in ks ==> f[k] >= 0.0
    ensures Total(ks, f) >= 0.0
  {
    if ks != [] {
      TotalNonNegative(ks[1..], f);
    }
  }

  lemma ValuesBounded(keys: seq<Key>, adj: Graph, t: Table<real>)
    requires ValidGraph(keys, adj) && Balanced(keys, adj, t) && NonNegativeTable(t)
    ensures 0.0 <= Total(keys, ValuesOf(t)) <= |keys| as real
  {
    Conservation(keys, adj, t);
    TotalNonNegative(keys, ValuesOf(t));
    TotalNonNegative(keys, DanglingOf(adj, t));
    TotalNonNegative(keys, DeltasOf(t));
  }

  /** Under every schedule no mass is lost or created, so the values never sum to more than
      the number of vertices. */
  lemma EveryRunConservesMass(n: nat, keys: seq<Key>, adj: Graph, acts: seq<Action<real>>)
    requires ValidRun(n, keys, adj, acts)
    ensures var t := After(n, keys, adj, acts);
            && Balanced(keys, adj, t)
            && 0.2 * Total(keys, ValuesOf(t)) + 0.8 * Total(keys, DanglingOf(adj, t)) + Total(keys, DeltasOf(t))
               == 0.2 * |keys| as real
            && 0.0 <= Total(keys, ValuesOf(t)) <= |keys| as real
  {
    EveryRunBalanced(n, keys, adj, acts);
    Conservation(keys, adj, After(n, keys, adj, acts));
    ValuesBounded(keys, adj, After(n, keys, adj, acts));
  }

  /** A solution, seen as a balanced table without residual. */
  lemma SolutionMass(keys: seq<Key>, adj: Graph, x: Values, s: Table<real>)
    requires ValidGraph(keys, adj) && Solves(keys, adj, x)
    requires s == map k | k in x :: Row(0.0, x[k])
    ensures ValuesOf(s) == x
    ensures 0.2 * Total(keys, x) + 0.8 * Total(keys, DanglingOf(adj, s)) == 0.2 * |keys| as real
  {
    assert ValuesOf(s) == x;
    Conservation(keys, adj, s);
    TotalZero(keys, DeltasOf(s));
  }

  lemma DanglingBelow(keys: seq<Key>, adj: Graph, t: Table<real>, s: Table<real>)
    requires forall k :: k in keys ==> k in t && k in s && t[k].value <= s[k].value
    ensures Total(keys, DanglingOf(adj, t)) <= Total(keys, DanglingOf(adj, s))
  {
    TotalMonotone(keys, DanglingOf(adj, t), DanglingOf(adj, s));
  }

  /** Below a solution, the distance to it is at most five times the total residual. */
  lemma ErrorBound(keys: seq<Key>, adj: Graph, t: Table<real>, x: Values)
    requires ValidGraph(keys, adj) && Balanced(keys, adj, t) && Solves(keys, adj, x) && Below(keys, t, x)
    ensures Total(keys, x) - Total(keys, ValuesOf(t)) <= 5.0 * Total(keys, DeltasOf(t))
  {
    hide Total;
    var s: Table<real> := map k | k in x :: Row(0.0, x[k]);
    SolutionMass(keys, adj, x, s);
    Conservation(keys, adj, t);
    DanglingBelow(keys, adj, t, s);
  }

  /** Under every schedule, at every moment. */
  lemma EveryRunErrorBound(n: nat, keys: seq<Key>, adj: Graph, acts: seq<Action<real>>, x: Values)
    requires ValidRun(n, keys, adj, acts) && Solves(keys, adj, x)
    ensures var t := After(n, keys, adj, acts);
            && Balanced(keys, adj, t)
            && Below(keys, t, x)
            && Total(keys, x) - Total(keys, ValuesOf(t)) <= 5.0 * Total(keys, DeltasOf(t))
  {
    EveryRunBalanced(n, keys, adj, acts);
    EveryRunBelow(n, keys, adj, acts, x);
    ErrorBound(keys, adj, After(n, keys, adj, acts), x);
  }

  lemma QuietTableSolves(keys: seq<Key>, adj: Graph, t: Table<real>)
    requires ValidGraph(keys, adj) && Balanced(keys, adj, t) && NonNegativeTable(t)
    requires forall k :: k in t ==> t[k].delta == 0.0
    ensures Solves(keys, adj, ValuesOf(t)) && Total(keys, DeltasOf(t)) == 0.0
  {
    TotalZero(keys, DeltasOf(t));
  }

  /** At quiescence the values are the one non-negative solution, whatever the schedule was. */
  lemma QuiescentRunSolves(n: nat, keys: seq<Key>, adj: Graph, acts: seq<Action<real>>)
    requires ValidRun(n, keys, adj, acts)
    requires forall k :: k in After(n, keys, adj, acts) ==> After(n, keys, adj, acts)[k].delta == 0.0
    ensures Solves(keys, adj, ValuesOf(After(n, keys, adj, acts)))
    ensures forall x :: Solves(keys, adj, x) ==> x == ValuesOf(After(n, keys, adj, acts))
  {
    EveryRunBalanced(n, keys, adj, acts);
    var t := After(n, keys, adj, acts);
    QuietTableSolves(keys, adj, t);
    forall x | Solves(keys, adj, x)
      ensures x == ValuesOf(t)
    {
      EveryRunErrorBound(n, keys, adj, acts, x);
      OnlySolution(keys, adj, t, x);
    }
  }

  lemma OnlySolution(keys: seq<Key>, adj: Graph, t: Table<real>, x: Values)
    requires Balanced(keys, adj, t) && Solves(keys, adj, x) && Below(keys, t, x)
    requires Total(keys, x) - Total(keys, ValuesOf(t)) <= 0.0
    ensures x == ValuesOf(t)
  {
    TotalMonotone(keys, ValuesOf(t), x);
  }
}
