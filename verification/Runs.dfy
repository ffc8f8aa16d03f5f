/** Lifting facts about single deltas and about the one-table machine to every schedule. */
module Runs {
  import opened Collections
  import opened DeltaMonoid
  import opened Protocol
  import opened Refinement

  // ---------------------------------------------------------------- facts about held deltas

  ghost predicate WorkerHolds<V>(w: Worker<V>, P: (Key, V) -> bool) {
    && (forall k :: k in w.rows ==> P(k, w.rows[k].delta) && P(k, w.rows[k].value))
    && PairsHold(w.output, P)
    && (forall s :: 0 <= s < |w.buffers| ==> BufferHolds(w.buffers[s], P))
  }

  ghost predicate BufferHolds<V>(b: map<Key, V>, P: (Key, V) -> bool) {
    forall k :: k in b ==> P(k, b[k])
  }

  ghost predicate PairsHold<V>(kv: seq<(Key, V)>, P: (Key, V) -> bool) {
    forall j :: 0 <= j < |kv| ==> P(kv[j].0, kv[j].1)
  }

  /** `P` holds of every value and every delta, wherever it sits. */
  ghost predicate Everywhere<V>(c: Cluster<V>, P: (Key, V) -> bool) {
    && (forall i :: 0 <= i < |c.workers| ==> WorkerHolds(c.workers[i], P))
    && (forall j :: 0 <= j < |c.net| ==> PairsHold(c.net[j].kv, P))
  }

  /** `P` is closed under `accumulate`, `default_v` and `g_func`. */
  ghost predicate Closed<V(!new)>(p: Program<V>, P: (Key, V) -> bool) {
    && (forall k :: P(k, p.m.zero))
    && (forall k, a, b :: P(k, a) && P(k, b) ==> P(k, p.m.acc(a, b)))
    && (forall k, d, v :: k in p.keys && P(k, d) && P(k, v) ==> PairsHold(p.g(k, d, v), P))
  }

  lemma AccumulateHolds<V(!new)>(p: Program<V>, i: nat, w: Worker<V>, k: Key, x: V, P: (Key, V) -> bool)
    requires p.n > 0 && WorkerOk(p, i, w) && i < p.n && k in p.keys
    requires Closed(p, P) && WorkerHolds(w, P) && P(k, x)
    ensures WorkerHolds(AccumulateF1(p, i, w, k, x), P)
  {
    var s := Owner(p, k);
    assert BufferHolds(w.buffers[s], P);
  }

  lemma {:induction false} ApplyAllHolds<V(!new)>(
    p: Program<V>, i: nat, w: Worker<V>, kv: seq<(Key, V)>, P: (Key, V) -> bool)
    requires p.n > 0 && WorkerOk(p, i, w) && i < p.n && PutOk(p, Put(i, kv))
    requires Closed(p, P) && WorkerHolds(w, P) && PairsHold(kv, P)
    ensures forall j :: 0 <= j < |kv| ==> kv[j].0 in w.rows && Owner(p, kv[j].0) == i
    ensures WorkerHolds(ApplyAll(p, i, w, kv), P)
    decreases |kv|
  {
    ApplyAllOk(p, i, w, kv);
    if kv != [] {
      assert kv[0].0 == Put(i, kv).kv[0].0;
      AccumulateOk(p, i, w, kv[0].0, kv[0].1);
      AccumulateHolds(p, i, w, kv[0].0, kv[0].1, P);
      assert PutOk(p, Put(i, kv[1..]));
      ApplyAllHolds(p, i, AccumulateF1(p, i, w, kv[0].0, kv[0].1), kv[1..], P);
    }
  }

  lemma StepHolds<V(!new)>(p: Program<V>, c: Cluster<V>, a: Action<V>, P: (Key, V) -> bool)
    requires ValidProgram(p) && ClusterOk(p, c) && Enabled(p, c, a)
    requires Closed(p, P) && Everywhere(c, P)
    ensures Everywhere(Step(p, c, a), P)
  {
    match a
    case Process(i, k) =>
      assert WorkerOk(p, i, c.workers[i]) && WorkerHolds(c.workers[i], P);
      assert WorkerHolds(ProcessKey(p, c.workers[i], k), P);
    case Emit(i) =>
      var w := c.workers[i];
      assert WorkerOk(p, i, w) && WorkerHolds(w, P) && w.output[0].0 in p.keys;
      AccumulateHolds(p, i, w.(output := w.output[1..]), w.output[0].0, w.output[0].1, P);
    case Send(i, s, kv) =>
      var w := c.workers[i];
      assert WorkerHolds(w, P) && BufferHolds(w.buffers[s], P);
      assert PairsHold(kv, P);
      assert WorkerHolds(w.(buffers := w.buffers[s := map[]]), P);
    case Deliver(j) =>
      var put := c.net[j];
      assert PutOk(p, put) && put == Put(put.shard, put.kv) && WorkerHolds(c.workers[put.shard], P);
      ApplyAllHolds(p, put.shard, c.workers[put.shard], put.kv, P);
  }

  lemma {:induction false} AtHolds<V(!new)>(p: Program<V>, kv: seq<(Key, V)>, k: Key, P: (Key, V) -> bool)
    requires Closed(p, P) && PairsHold(kv, P)
    ensures P(k, At(p.m, kv, k))
  {
    if kv != [] {
      AtHolds(p, kv[1..], k, P);
    }
  }

  lemma LeavingHolds<V(!new)>(p: Program<V>, w: Worker<V>, k: Key, P: (Key, V) -> bool)
    requires p.n > 0 && |w.buffers| == p.n && Closed(p, P) && WorkerHolds(w, P)
    ensures P(k, Leaving(p, w, k)) && P(k, Held(p, w, k))
  {
    AtHolds(p, w.output, k, P);
    assert BufferHolds(w.buffers[Owner(p, k)], P);
  }

  lemma {:induction false} HeldAllHolds<V(!new)>(p: Program<V>, ws: seq<Worker<V>>, k: Key, P: (Key, V) -> bool)
    requires p.n > 0 && Shaped(p, ws) && Closed(p, P)
    requires forall i :: 0 <= i < |ws| ==> WorkerHolds(ws[i], P)
    ensures P(k, HeldAll(p, ws, k))
  {
    if ws != [] {
      LeavingHolds(p, ws[0], k, P);
      HeldAllHolds(p, ws[1..], k, P);
    }
  }

  lemma {:induction false} InFlightHolds<V(!new)>(p: Program<V>, net: seq<Put<V>>, k: Key, P: (Key, V) -> bool)
    requires Closed(p, P) && forall j :: 0 <= j < |net| ==> PairsHold(net[j].kv, P)
    ensures P(k, InFlight(p, net, k))
  {
    if net != [] {
      AtHolds(p, net[0].kv, k, P);
      InFlightHolds(p, net[1..], k, P);
    }
  }

  lemma ResidualHolds<V(!new)>(p: Program<V>, c: Cluster<V>, i: nat, k: Key, P: (Key, V) -> bool)
    requires ValidProgram(p) && ClusterOk(p, c) && i < p.n && Closed(p, P) && Everywhere(c, P)
    ensures P(k, Residual(p, c, k)) && P(k, Rest(p, c, i, k))
  {
    HeldAllHolds(p, c.workers, k, P);
    InFlightHolds(p, c.net, k, P);
    assert WorkerHolds(c.workers[i], P);
    LeavingHolds(p, c.workers[i], k, P);
    HeldAllHolds(p, Without(c.workers, i), k, P);
  }

  // ---------------------------------------------------------------- facts about the table

  ghost predicate TableHolds<V>(t: Table<V>, P: (Key, V) -> bool) {
    forall k :: k in t ==> P(k, t[k].delta) && P(k, t[k].value)
  }

  /** `J` survives every one-table step whose parts satisfy `P`. */
  ghost predicate Inductive<V(!new)>(p: Program<V>, P: (Key, V) -> bool, J: Table<V> -> bool) {
    forall t, t', k, d, rest ::
      J(t) && TableHolds(t, P) && TableStep(p, t, t', k, d, rest) && P(k, d) && P(k, rest) ==> J(t')
  }

  lemma AbsHolds<V(!new)>(p: Program<V>, c: Cluster<V>, P: (Key, V) -> bool)
    requires ValidProgram(p) && ClusterOk(p, c) && Closed(p, P) && Everywhere(c, P)
    ensures TableHolds(Abs(p, c), P)
  {
    forall k | k in p.keys
      ensures P(k, Residual(p, c, k)) && P(k, ValueOf(p, c, k))
    {
      ResidualHolds(p, c, 0, k, P);
      assert WorkerOk(p, Owner(p, k), c.workers[Owner(p, k)]) && WorkerHolds(c.workers[Owner(p, k)], P);
    }
  }

  /** Any property of the one-table machine holds after every schedule of the cluster. */
  lemma {:induction false} RunInvariant<V(!new)>(
    p: Program<V>, c: Cluster<V>, acts: seq<Action<V>>, P: (Key, V) -> bool, J: Table<V> -> bool)
    requires ValidProgram(p) && ClusterOk(p, c) && Feasible(p, c, acts)
    requires Closed(p, P) && Everywhere(c, P)
    requires Inductive(p, P, J) && J(Abs(p, c))
    ensures Everywhere(Run(p, c, acts), P)
    ensures TableHolds(Abs(p, Run(p, c, acts)), P)
    ensures J(Abs(p, Run(p, c, acts)))
    decreases |acts|
  {
    AbsHolds(p, c, P);
    if acts != [] {
      var a := acts[0];
      StepOk(p, c, a);
      StepHolds(p, c, a, P);
      if a.Process? {
        var w := c.workers[a.worker];
        ProcessStep(p, c, a.worker, a.key);
        ResidualHolds(p, c, a.worker, a.key, P);
        assert WorkerHolds(w, P) && P(a.key, w.rows[a.key].delta);
        assert J(Abs(p, Step(p, c, a)));
      } else {
        QuietStep(p, c, a);
      }
      RunInvariant(p, Step(p, c, a), acts[1..], P, J);
    }
  }

  // ---------------------------------------------------------------- the starting state

  lemma {:induction false} HeldAllZero<V(!new)>(p: Program<V>, ws: seq<Worker<V>>, k: Key)
    requires p.n > 0 && Lawful(p.m) && Shaped(p, ws)
    requires forall i :: 0 <= i < |ws| ==> Held(p, ws[i], k) == p.m.zero
    ensures HeldAll(p, ws, k) == p.m.zero
  {
    if ws != [] {
      HeldAllZero(p, ws[1..], k);
      Unit(p.m, p.m.zero);
    }
  }

  lemma InitialHeld<V(!new)>(p: Program<V>, i: nat, k: Key)
    requires ValidProgram(p) && i < p.n && k in p.keys
    ensures Held(p, InitialWorker(p, i), k) == if Owner(p, k) == i then p.init(k).delta else p.m.zero
  {
    Unit(p.m, p.m.zero);
    Unit(p.m, p.init(k).delta);
  }

  lemma InitialResidual<V(!new)>(p: Program<V>, k: Key)
    requires ValidProgram(p) && k in p.keys
    ensures Residual(p, Initial(p), k) == p.init(k).delta
  {
    var ws, i := Initial(p).workers, Owner(p, k);
    forall j | 0 <= j < p.n
      ensures Held(p, ws[j], k) == if j == i then p.init(k).delta else p.m.zero
    {
      InitialHeld(p, j, k);
    }
    HeldSplit(p, ws, i, k);
    HeldAllZero(p, Without(ws, i), k);
    Unit(p.m, p.init(k).delta);
  }

  /** The cluster starts as the table of `init_c` and `init_v` values. */
  lemma InitialAbs<V(!new)>(p: Program<V>)
    requires ValidProgram(p)
    ensures Abs(p, Initial(p)) == map k | k in p.keys :: p.init(k)
  {
    forall k | k in p.keys
      ensures Abs(p, Initial(p))[k] == p.init(k)
    {
      InitialResidual(p, k);
      assert ValueOf(p, Initial(p), k) == InitialWorker(p, Owner(p, k)).rows[k].value;
    }
  }

  lemma InitialHolds<V(!new)>(p: Program<V>, P: (Key, V) -> bool)
    requires p.n > 0
    requires forall k :: k in p.keys ==> P(k, p.init(k).delta) && P(k, p.init(k).value)
    ensures Everywhere(Initial(p), P)
  {
    forall i | 0 <= i < p.n
      ensures WorkerHolds(Initial(p).workers[i], P)
    {
      assert Initial(p).workers[i] == InitialWorker(p, i);
    }
  }
}
