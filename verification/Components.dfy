/** The connected-components kernel: every vertex ends with the largest id that reaches it.
    Its g_func sends the value, not the delta, and the results below need only that no pending
    delta would change a value, which is weaker than that nothing is pending. */
module Components {
  import opened DeltaMonoid
  import opened Protocol
  import opened Refinement
  import opened Runs

  type Graph = map<Key, seq<Key>>

  function Max(a: nat, b: nat): nat { if a >= b then a else b }

  const MaxMonoid: Monoid<nat> := Monoid(0, (a, b) => Max(a, b))

  // ---------------------------------------------------------------- the kernel

  /** g_func: the current value to every out-neighbour. */
  method GFunc(data: seq<Key>, delta: nat, value: nat) returns (output: seq<(Key, nat)>)
    ensures |output| == |data|
    ensures forall i :: 0 <= i < |data| ==> output[i] == (data[i], value)
    ensures output == Spread(data, value)
  {
    output := [];
    for i := 0 to |data|
      invariant |output| == i
      invariant forall j :: 0 <= j < i ==> output[j] == (data[j], value)
    {
      output := output + [(data[i], value)];
    }
    SpreadAt(data, value);
  }

  ghost predicate ValidGraph(keys: seq<Key>, adj: Graph) {
    && (forall k :: k in keys <==> k in adj)
    && (forall k, i :: k in adj && 0 <= i < |adj[k]| ==> adj[k][i] in adj)
  }

  function Job(n: nat, keys: seq<Key>, adj: Graph): Program<nat> {
    Program(n, keys, MaxMonoid, (k: Key) => Row(k, 0), (k, d, v) => if k in adj then Spread(adj[k], v) else [])
  }

  lemma JobValid(n: nat, keys: seq<Key>, adj: Graph)
    requires n > 0 && ValidGraph(keys, adj)
    ensures ValidProgram(Job(n, keys, adj))
  {
    var p := Job(n, keys, adj);
    forall k: Key, d: nat, v: nat | k in p.keys
      ensures Targets(p, p.g(k, d, v))
    {
      SpreadAt(adj[k], v);
    }
  }

  // ---------------------------------------------------------------- reachability

  /** `w` lists the vertices before `k` on a path from `u` to `k`. */
  ghost predicate IsPath(adj: Graph, u: Key, w: seq<Key>, k: Key) {
    if w == [] then u == k && k in adj
    else var i := w[|w| - 1]; i in adj && k in adj[i] && IsPath(adj, u, w[..|w| - 1], i)
  }

  ghost predicate Reaches(adj: Graph, u: Key, k: Key) { exists w :: IsPath(adj, u, w, k) }

  /** `x` is the largest id that reaches `k`. */
  ghost predicate IsLargest(adj: Graph, k: Key, x: nat) {
    Reaches(adj, x, k) && forall u: Key :: Reaches(adj, u, k) ==> u <= x
  }

  /** `x` is the default or an id that reaches `k`. */
  ghost predicate Real(adj: Graph, k: Key, x: nat) { x == 0 || Reaches(adj, x, k) }

  ghost function RealIds(adj: Graph): (Key, nat) -> bool { (k: Key, x: nat) => Real(adj, k, x) }

  lemma ExtendReal(adj: Graph, i: Key, j: Key, x: nat)
    requires i in adj && j in adj[i] && Real(adj, i, x)
    ensures Real(adj, j, x)
  {
    if x != 0 {
      var w :| IsPath(adj, x, w, i);
      var w' := w + [i];
      assert w'[..|w'| - 1] == w;
      assert IsPath(adj, x, w', j);
    }
  }

  lemma RealClosed(n: nat, keys: seq<Key>, adj: Graph)
    requires n > 0 && ValidGraph(keys, adj)
    ensures Closed(Job(n, keys, adj), RealIds(adj))
  {
    var p := Job(n, keys, adj);
    forall k: Key, d: nat, v: nat | k in p.keys && Real(adj, k, v)
      ensures PairsHold(p.g(k, d, v), RealIds(adj))
    {
      SpreadAt(adj[k], v);
      forall e | 0 <= e < |adj[k]|
        ensures Real(adj, adj[k][e], v)
      {
        ExtendReal(adj, k, adj[k][e], v);
      }
    }
  }

  // ---------------------------------------------------------------- the invariant

  function Best(r: Row<nat>): nat { Max(r.value, r.delta) }

  /** Each vertex has, or is about to get, its own id and its in-neighbours' values. */
  ghost predicate Spreading(keys: seq<Key>, adj: Graph, t: Table<nat>)
    ensures Spreading(keys, adj, t) ==> forall k :: k in keys ==> k in t
  {
    && (forall k :: k in keys <==> k in t)
    && (forall k :: k in t ==> k <= Best(t[k]))
    && forall i, j :: i in t && i in adj && j in adj[i] && j in t ==> t[i].value <= Best(t[j])
  }

  lemma {:induction false} AtSpread(targets: seq<Key>, x: nat, j: Key)
    ensures At(MaxMonoid, Spread(targets, x), j) == if j in targets then x else 0
  {
    if targets != [] {
      AtSpread(targets[1..], x, j);
      assert Spread(targets, x)[1..] == Spread(targets[1..], x);
    }
  }

  lemma BestStep(n: nat, keys: seq<Key>, adj: Graph, t: Table<nat>, t': Table<nat>, k: Key, d: nat, rest: nat, j: Key)
    requires TableStep(Job(n, keys, adj), t, t', k, d, rest) && j in t && k in adj
    ensures t'.Keys == t.Keys
    ensures t'[j].value == if j == k then Max(t[k].value, d) else t[j].value
    ensures Best(t'[j]) == Max(Best(t[j]), if j in adj[k] then Max(t[k].value, d) else 0)
  {
    AtSpread(adj[k], Max(t[k].value, d), j);
  }

  lemma SpreadingStep(n: nat, keys: seq<Key>, adj: Graph, t: Table<nat>, t': Table<nat>, k: Key, d: nat, rest: nat)
    requires ValidGraph(keys, adj) && Spreading(keys, adj, t)
    requires TableStep(Job(n, keys, adj), t, t', k, d, rest)
    ensures Spreading(keys, adj, t')
  {
    BestStep(n, keys, adj, t, t', k, d, rest, k);
    forall j | j in t'
      ensures j <= Best(t'[j])
    {
      BestStep(n, keys, adj, t, t', k, d, rest, j);
    }
    forall i, j | i in t' && i in adj && j in adj[i] && j in t'
      ensures t'[i].value <= Best(t'[j])
    {
      BestStep(n, keys, adj, t, t', k, d, rest, i);
      BestStep(n, keys, adj, t, t', k, d, rest, j);
    }
  }

  /** No pending delta would change a value. */
  ghost predicate Stable(t: Table<nat>) {
    forall k :: k in t ==> t[k].delta <= t[k].value
  }

  lemma {:induction false} StableAboveReachers(keys: seq<Key>, adj: Graph, t: Table<nat>, u: Key, w: seq<Key>, k: Key)
    requires ValidGraph(keys, adj) && Spreading(keys, adj, t) && Stable(t)
    requires k in keys && IsPath(adj, u, w, k)
    ensures k in t && u <= t[k].value
    decreases |w|
  {
    if w != [] {
      StableAboveReachers(keys, adj, t, u, w[..|w| - 1], w[|w| - 1]);
    }
  }

  lemma StableTableIsExact(keys: seq<Key>, adj: Graph, t: Table<nat>)
    requires ValidGraph(keys, adj) && Spreading(keys, adj, t) && TableHolds(t, RealIds(adj)) && Stable(t)
    ensures t.Keys == set k | k in keys
    ensures forall k :: k in keys ==> IsLargest(adj, k, t[k].value)
  {
    forall k | k in keys
      ensures IsLargest(adj, k, t[k].value)
    {
      StableRowIsExact(keys, adj, t, k);
    }
  }

  lemma StableRowIsExact(keys: seq<Key>, adj: Graph, t: Table<nat>, k: Key)
    requires ValidGraph(keys, adj) && Spreading(keys, adj, t) && TableHolds(t, RealIds(adj)) && Stable(t)
    requires k in keys
    ensures IsLargest(adj, k, t[k].value)
  {
    hide Spreading, Stable, IsPath;
    ReachesItself(adj, k);
    forall u: Key | Reaches(adj, u, k)
      ensures u <= t[k].value
    {
      var w :| IsPath(adj, u, w, k);
      StableAboveReachers(keys, adj, t, u, w, k);
    }
    assert RealIds(adj)(k, t[k].value);
  }

  lemma ReachesItself(adj: Graph, k: Key)
    requires k in adj
    ensures Reaches(adj, k, k)
  {
    assert IsPath(adj, k, [], k);
  }

  // ---------------------------------------------------------------- the theorems

  ghost predicate ValidRun(n: nat, keys: seq<Key>, adj: Graph, acts: seq<Action<nat>>) {
    && n > 0
    && ValidGraph(keys, adj)
    && ValidProgram(Job(n, keys, adj))
    && Feasible(Job(n, keys, adj), Initial(Job(n, keys, adj)), acts)
  }

  ghost function Final(n: nat, keys: seq<Key>, adj: Graph, acts: seq<Action<nat>>): Cluster<nat>
    requires ValidRun(n, keys, adj, acts)
  {
    Run(Job(n, keys, adj), Initial(Job(n, keys, adj)), acts)
  }

  ghost function After(n: nat, keys: seq<Key>, adj: Graph, acts: seq<Action<nat>>): Table<nat>
    requires ValidRun(n, keys, adj, acts)
  {
    Abs(Job(n, keys, adj), Final(n, keys, adj, acts))
  }

  ghost function SpreadingInv(keys: seq<Key>, adj: Graph): Table<nat> -> bool {
    (t: Table<nat>) => Spreading(keys, adj, t)
  }

  lemma SpreadingInductive(n: nat, keys: seq<Key>, adj: Graph)
    requires ValidGraph(keys, adj)
    ensures Inductive(Job(n, keys, adj), RealIds(adj), SpreadingInv(keys, adj))
  {
    forall t, t', k, d, rest | Spreading(keys, adj, t) && TableStep(Job(n, keys, adj), t, t', k, d, rest)
      ensures Spreading(keys, adj, t')
    {
      SpreadingStep(n, keys, adj, t, t', k, d, rest);
    }
  }

  lemma InitiallyReal(n: nat, keys: seq<Key>, adj: Graph)
    requires n > 0 && ValidGraph(keys, adj)
    ensures Everywhere(Initial(Job(n, keys, adj)), RealIds(adj))
  {
    forall k | k in keys
      ensures Real(adj, k, k)
    {
      assert IsPath(adj, k, [], k);
    }
    InitialHolds(Job(n, keys, adj), RealIds(adj));
  }

  lemma StartSpreading(keys: seq<Key>, adj: Graph, t: Table<nat>)
    requires t == map k | k in keys :: Row(k, 0)
    ensures Spreading(keys, adj, t)
  {
  }

  /** Under every schedule every id held anywhere, other than the default, reaches its vertex. */
  lemma EveryRunSpreading(n: nat, keys: seq<Key>, adj: Graph, acts: seq<Action<nat>>)
    requires ValidRun(n, keys, adj, acts)
    ensures Everywhere(Final(n, keys, adj, acts), RealIds(adj))
    ensures TableHolds(After(n, keys, adj, acts), RealIds(adj))
    ensures Spreading(keys, adj, After(n, keys, adj, acts))
  {
    var p := Job(n, keys, adj);
    RealClosed(n, keys, adj);
    SpreadingInductive(n, keys, adj);
    InitiallyReal(n, keys, adj);
    InitialAbs(p);
    StartSpreading(keys, adj, Abs(p, Initial(p)));
    RunInvariant(p, Initial(p), acts, RealIds(adj), SpreadingInv(keys, adj));
  }

  /** Once nothing pending would change a value, every vertex has the largest id reaching it. */
  lemma StableRunIsExact(n: nat, keys: seq<Key>, adj: Graph, acts: seq<Action<nat>>)
    requires ValidRun(n, keys, adj, acts)
    requires Stable(After(n, keys, adj, acts))
    ensures After(n, keys, adj, acts).Keys == set k | k in keys
    ensures forall k :: k in keys ==> IsLargest(adj, k, After(n, keys, adj, acts)[k].value)
  {
    EveryRunSpreading(n, keys, adj, acts);
    StableTableIsExact(keys, adj, After(n, keys, adj, acts));
  }

  // ---------------------------------------------------------------- how often values change

  /** The number of process steps of the schedule that change a value. */
  ghost function Changes(p: Program<nat>, c: Cluster<nat>, acts: seq<Action<nat>>): nat
    requires ValidProgram(p) && ClusterOk(p, c) && Feasible(p, c, acts)
    decreases |acts|
  {
    if acts == [] then 0
    else
      StepOk(p, c, acts[0]);
      var c' := Step(p, c, acts[0]);
      (if acts[0].Process? && ValuesOf(Abs(p, c')) != ValuesOf(Abs(p, c)) then 1 else 0) + Changes(p, c', acts[1..])
  }

  function ValuesOf(t: Table<nat>): map<Key, nat> { map k | k in t :: t[k].value }

  /** How far the values may still rise before all of them reach `top`. */
  ghost function Room(ks: seq<Key>, x: map<Key, nat>, top: nat): nat
    requires forall k :: k in ks ==> k in x && x[k] <= top
  {
    if ks == [] then 0 else top - x[ks[0]] + Room(ks[1..], x, top)
  }

  lemma {:induction false} RoomShrinks(ks: seq<Key>, x: map<Key, nat>, y: map<Key, nat>, top: nat)
    requires forall k :: k in ks ==> k in x && k in y && x[k] <= y[k] <= top
    ensures Room(ks, y, top) <= Room(ks, x, top) <= top * |ks|
    ensures (exists k :: k in ks && x[k] != y[k]) ==> Room(ks, y, top) < Room(ks, x, top)
  {
    if ks != [] {
      RoomShrinks(ks[1..], x, y, top);
      assert top * |ks| == top + top * |ks[1..]|;
      assert forall k :: k in ks ==> k == ks[0] || k in ks[1..];
    }
  }

  ghost function UpTo(top: nat): (Key, nat) -> bool { (k: Key, x: nat) => x <= top }

  lemma UpToClosed(n: nat, keys: seq<Key>, adj: Graph, top: nat)
    requires ValidGraph(keys, adj)
    ensures Closed(Job(n, keys, adj), UpTo(top))
  {
    var p := Job(n, keys, adj);
    forall k: Key, d: nat, v: nat | k in p.keys && v <= top
      ensures PairsHold(p.g(k, d, v), UpTo(top))
    {
      SpreadAt(adj[k], v);
    }
  }

  lemma AbsUpTo(p: Program<nat>, c: Cluster<nat>, top: nat)
    requires ValidProgram(p) && ClusterOk(p, c) && Closed(p, UpTo(top)) && Everywhere(c, UpTo(top))
    ensures Abs(p, c).Keys == set i | i in p.keys
    ensures forall k :: k in p.keys ==> Abs(p, c)[k].value <= top
  {
    hide Residual, ValueOf, Closed, Everywhere;
    AbsHolds(p, c, UpTo(top));
    var t := Abs(p, c);
    assert forall k :: k in t ==> UpTo(top)(k, t[k].value);
  }

  ghost predicate Raised(t: Table<nat>, t': Table<nat>) {
    t'.Keys == t.Keys && forall k :: k in t ==> t[k].value <= t'[k].value
  }

  /** No step of any schedule lowers a value. */
  lemma NeverLowers(p: Program<nat>, c: Cluster<nat>, a: Action<nat>)
    requires p.m == MaxMonoid && ValidProgram(p) && ClusterOk(p, c) && Enabled(p, c, a)
    ensures ClusterOk(p, Step(p, c, a))
    ensures Raised(Abs(p, c), Abs(p, Step(p, c, a)))
  {
    if a.Process? {
      ProcessValues(p, c, a.worker, a.key);
    } else {
      QuietStep(p, c, a);
    }
  }

  ghost predicate Capped(p: Program<nat>, c: Cluster<nat>, top: nat) {
    && p.m == MaxMonoid && ValidProgram(p) && ClusterOk(p, c)
    && Closed(p, UpTo(top)) && Everywhere(c, UpTo(top))
  }

  ghost function RoomIn(p: Program<nat>, c: Cluster<nat>, top: nat): nat
    requires Capped(p, c, top)
  {
    AbsUpTo(p, c, top);
    Room(p.keys, ValuesOf(Abs(p, c)), top)
  }

  lemma TableRoom(keys: seq<Key>, t: Table<nat>, t': Table<nat>, top: nat)
    requires t.Keys == t'.Keys == set i | i in keys
    requires forall k :: k in keys ==> t[k].value <= t'[k].value <= top
    ensures Room(keys, ValuesOf(t'), top) + (if ValuesOf(t') != ValuesOf(t) then 1 else 0)
         <= Room(keys, ValuesOf(t), top)
  {
    RoomShrinks(keys, ValuesOf(t), ValuesOf(t'), top);
  }

  /** Every step keeps the room, and a step that changes a value uses some of it up. */
  lemma StepRoom(p: Program<nat>, c: Cluster<nat>, a: Action<nat>, top: nat)
    requires Capped(p, c, top) && Enabled(p, c, a)
    ensures Capped(p, Step(p, c, a), top)
    ensures RoomIn(p, Step(p, c, a), top) + (if ValuesOf(Abs(p, Step(p, c, a))) != ValuesOf(Abs(p, c)) then 1 else 0)
         <= RoomIn(p, c, top)
  {
    hide ClusterOk, Closed, Everywhere, Abs, Step, Enabled, Room;
    NeverLowers(p, c, a);
    StepHolds(p, c, a, UpTo(top));
    AbsUpTo(p, c, top);
    AbsUpTo(p, Step(p, c, a), top);
    TableRoom(p.keys, Abs(p, c), Abs(p, Step(p, c, a)), top);
  }

  lemma {:induction false} ChangesFrom(p: Program<nat>, c: Cluster<nat>, acts: seq<Action<nat>>, top: nat)
    requires Capped(p, c, top) && Feasible(p, c, acts)
    ensures Changes(p, c, acts) <= RoomIn(p, c, top)
    decreases |acts|
  {
    if acts != [] {
      StepRoom(p, c, acts[0], top);
      ChangesFrom(p, Step(p, c, acts[0]), acts[1..], top);
    }
  }

  /** However long the schedule, values change at most (largest id) * (number of vertices) times. */
  lemma EveryRunChangesBounded(n: nat, keys: seq<Key>, adj: Graph, acts: seq<Action<nat>>, top: nat)
    requires ValidRun(n, keys, adj, acts) && forall k :: k in keys ==> k <= top
    ensures Changes(Job(n, keys, adj), Initial(Job(n, keys, adj)), acts) <= top * |keys|
  {
    var p := Job(n, keys, adj);
    UpToClosed(n, keys, adj, top);
    InitialHolds(p, UpTo(top));
    ChangesFrom(p, Initial(p), acts, top);
    AbsUpTo(p, Initial(p), top);
    RoomBound(keys, Abs(p, Initial(p)), top);
  }

  lemma RoomBound(keys: seq<Key>, t: Table<nat>, top: nat)
    requires forall k :: k in keys ==> k in t && t[k].value <= top
    ensures Room(keys, ValuesOf(t), top) <= top * |keys|
  {
    RoomShrinks(keys, ValuesOf(t), ValuesOf(t), top);
  }
}
