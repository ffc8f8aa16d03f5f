/** The asynchronous delta-accumulation protocol: n workers, one shard each, exchanging
    deltas through combining buffers and an unordered network. A schedule is any sequence
    of enabled actions; every theorem below quantifies over all schedules. */
module Protocol {
  import opened Collections
  import opened DeltaMonoid

  /** One row of the state table: F1 (the pending delta) and F2 (the value). */
  datatype Row<V> = Row(delta: V, value: V)

  /** A job: the number of workers (and shards), the vertex keys, the user's `accumulate`
      with its identity, the initial rows (`init_c`, `init_v`), and `g_func` over the
      vertex's fixed adjacency data, as a function of key, delta and value. */
  datatype Program<!V> = Program(
    n: nat, keys: seq<Key>, m: Monoid<V>, init: Key -> Row<V>, g: (Key, V, V) -> seq<(Key, V)>)

  /** The local state table, the kernel's output vector, and one DeltaTable per shard. */
  datatype Worker<V> = Worker(rows: map<Key, Row<V>>, output: seq<(Key, V)>, buffers: seq<map<Key, V>>)

  /** An in-flight PUT request. */
  datatype Put<V> = Put(shard: nat, kv: seq<(Key, V)>)

  /** `net` is unordered: `Deliver` may pick any position. */
  datatype Cluster<V> = Cluster(workers: seq<Worker<V>>, net: seq<Put<V>>)

  datatype Action<V> =
    | Process(worker: nat, key: Key)
    | Emit(worker: nat)
    | Send(worker: nat, shard: nat, kv: seq<(Key, V)>)
    | Deliver(index: nat)

  /** Sharding::Mod. */
  function Owner<V>(p: Program<V>, k: Key): nat
    requires p.n > 0
  {
    k % p.n
  }

  /** `accumulate` obeys its laws and every edge ends at a known vertex. */
  ghost predicate ValidProgram<V(!new)>(p: Program<V>) {
    && p.n > 0
    && Lawful(p.m)
    && forall k, d, v :: k in p.keys ==> Targets(p, p.g(k, d, v))
  }

  ghost predicate Targets<V>(p: Program<V>, kv: seq<(Key, V)>) {
    forall i :: 0 <= i < |kv| ==> kv[i].0 in p.keys
  }

  ghost predicate InShard<V>(p: Program<V>, s: nat, b: map<Key, V>)
    requires p.n > 0
  {
    forall k :: k in b ==> k in p.keys && Owner(p, k) == s
  }

  /** Worker `i` holds exactly its shard's rows; its buffers hold other shards' keys only. */
  ghost predicate WorkerOk<V>(p: Program<V>, i: nat, w: Worker<V>)
    requires p.n > 0
  {
    && (forall k :: k in w.rows <==> k in p.keys && Owner(p, k) == i)
    && Targets(p, w.output)
    && |w.buffers| == p.n
    && (forall s :: 0 <= s < p.n ==> InShard(p, s, w.buffers[s]))
    && (i < p.n ==> w.buffers[i] == map[])
  }

  ghost predicate PutOk<V>(p: Program<V>, put: Put<V>)
    requires p.n > 0
  {
    && put.shard < p.n
    && forall j :: 0 <= j < |put.kv| ==> put.kv[j].0 in p.keys && Owner(p, put.kv[j].0) == put.shard
  }

  ghost predicate ClusterOk<V>(p: Program<V>, c: Cluster<V>)
    requires p.n > 0
  {
    && |c.workers| == p.n
    && (forall i :: 0 <= i < p.n ==> WorkerOk(p, i, c.workers[i]))
    && (forall j :: 0 <= j < |c.net| ==> PutOk(p, c.net[j]))
  }

  // ---------------------------------------------------------------- transitions

  /** accumulateF1: into the local row, or into the owner's combining buffer. */
  function AccumulateF1<V>(p: Program<V>, i: nat, w: Worker<V>, k: Key, x: V): Worker<V>
    requires p.n > 0 && |w.buffers| == p.n
    requires Owner(p, k) == i ==> k in w.rows
  {
    var s := Owner(p, k);
    if s == i then
      w.(rows := w.rows[k := w.rows[k].(delta := p.m.acc(w.rows[k].delta, x))])
    else
      var b := w.buffers[s];
      var b': map<Key, V> := b[k := if k in b then p.m.acc(b[k], x) else x];
      w.(buffers := w.buffers[s := b'])
  }

  /** accumulateF2, g_func, updateF1(default_v): the rows are folded and the outputs queued. */
  function ProcessKey<V>(p: Program<V>, w: Worker<V>, k: Key): Worker<V>
    requires k in w.rows
  {
    var d := w.rows[k].delta;
    var v := p.m.acc(w.rows[k].value, d);
    w.(rows := w.rows[k := Row(p.m.zero, v)], output := p.g(k, d, v))
  }

  function ApplyAll<V>(p: Program<V>, i: nat, w: Worker<V>, kv: seq<(Key, V)>): Worker<V>
    requires p.n > 0 && |w.buffers| == p.n
    requires forall j :: 0 <= j < |kv| ==> kv[j].0 in w.rows && Owner(p, kv[j].0) == i
    decreases |kv|
  {
    if kv == [] then w else ApplyAll(p, i, AccumulateF1(p, i, w, kv[0].0, kv[0].1), kv[1..])
  }

  ghost predicate Enabled<V(!new)>(p: Program<V>, c: Cluster<V>, a: Action<V>)
    requires p.n > 0 && ClusterOk(p, c)
  {
    match a
    case Process(i, k) => i < p.n && k in c.workers[i].rows && c.workers[i].output == []
    case Emit(i) => i < p.n && c.workers[i].output != []
    case Send(i, s, kv) => i < p.n && s < p.n && s != i
                           && c.workers[i].buffers[s] != map[] && Lists(kv, c.workers[i].buffers[s])
    case Deliver(j) => j < |c.net|
  }

  ghost function Step<V(!new)>(p: Program<V>, c: Cluster<V>, a: Action<V>): Cluster<V>
    requires p.n > 0 && ClusterOk(p, c) && Enabled(p, c, a)
  {
    match a
    case Process(i, k) => c.(workers := c.workers[i := ProcessKey(p, c.workers[i], k)])
    case Emit(i) =>
      var w := c.workers[i];
      c.(workers := c.workers[i := AccumulateF1(p, i, w.(output := w.output[1..]), w.output[0].0, w.output[0].1)])
    case Send(i, s, kv) =>
      var w := c.workers[i];
      Cluster(c.workers[i := w.(buffers := w.buffers[s := map[]])], c.net + [Put(s, kv)])
    case Deliver(j) =>
      var put := c.net[j];
      assert PutOk(p, put);
      Cluster(c.workers[put.shard := ApplyAll(p, put.shard, c.workers[put.shard], put.kv)], Without(c.net, j))
  }

  /** All actions of the schedule are enabled in turn. */
  ghost predicate Feasible<V(!new)>(p: Program<V>, c: Cluster<V>, acts: seq<Action<V>>)
    requires ValidProgram(p) && ClusterOk(p, c)
    decreases |acts|
  {
    acts != [] ==>
      Enabled(p, c, acts[0]) && (StepOk(p, c, acts[0]); Feasible(p, Step(p, c, acts[0]), acts[1..]))
  }

  ghost function Run<V(!new)>(p: Program<V>, c: Cluster<V>, acts: seq<Action<V>>): (r: Cluster<V>)
    requires ValidProgram(p) && ClusterOk(p, c) && Feasible(p, c, acts)
    ensures ClusterOk(p, r)
    decreases |acts|
  {
    if acts == [] then c else (StepOk(p, c, acts[0]); Run(p, Step(p, c, acts[0]), acts[1..]))
  }

  lemma {:induction false} RunConcat<V(!new)>(p: Program<V>, c: Cluster<V>, a: seq<Action<V>>, b: seq<Action<V>>)
    requires ValidProgram(p) && ClusterOk(p, c)
    requires Feasible(p, c, a) && Feasible(p, Run(p, c, a), b)
    ensures Feasible(p, c, a + b) && Run(p, c, a + b) == Run(p, Run(p, c, a), b)
    decreases |a|
  {
    hide ClusterOk, Enabled, Step, Lawful;
    if a == [] {
      assert a + b == b;
    } else {
      assert (a + b)[0] == a[0] && (a + b)[1..] == a[1..] + b;
      StepOk(p, c, a[0]);
      RunConcat(p, Step(p, c, a[0]), a[1..], b);
    }
  }

  /** The number of process steps in a schedule. */
  ghost function Processes<V>(acts: seq<Action<V>>): nat {
    if acts == [] then 0 else (if acts[0].Process? then 1 else 0) + Processes(acts[1..])
  }

  lemma {:induction false} ProcessesConcat<V>(a: seq<Action<V>>, b: seq<Action<V>>)
    ensures Processes(a + b) == Processes(a) + Processes(b)
  {
    if a == [] {
      assert a + b == b;
    } else {
      assert (a + b)[1..] == a[1..] + b;
      ProcessesConcat(a[1..], b);
    }
  }

  lemma OneStep<V(!new)>(p: Program<V>, c: Cluster<V>, acts: seq<Action<V>>, a: Action<V>)
    requires ValidProgram(p) && ClusterOk(p, c) && Feasible(p, c, acts) && Enabled(p, Run(p, c, acts), a)
    ensures Feasible(p, c, acts + [a]) && Run(p, c, acts + [a]) == Step(p, Run(p, c, acts), a)
  {
    var c1 := Run(p, c, acts);
    StepOk(p, c1, a);
    assert [a][1..] == [];
    assert Feasible(p, Step(p, c1, a), []);
    assert Run(p, Step(p, c1, a), []) == Step(p, c1, a);
    RunConcat(p, c, acts, [a]);
  }

  // ---------------------------------------------------------------- well-formedness

  lemma AccumulateOk<V>(p: Program<V>, i: nat, w: Worker<V>, k: Key, x: V)
    requires p.n > 0 && WorkerOk(p, i, w) && k in p.keys && i < p.n
    ensures WorkerOk(p, i, AccumulateF1(p, i, w, k, x))
    ensures AccumulateF1(p, i, w, k, x).rows.Keys == w.rows.Keys
    ensures AccumulateF1(p, i, w, k, x).output == w.output
  {
  }

  lemma {:induction false} ApplyAllOk<V>(p: Program<V>, i: nat, w: Worker<V>, kv: seq<(Key, V)>)
    requires p.n > 0 && WorkerOk(p, i, w) && i < p.n && PutOk(p, Put(i, kv))
    ensures forall j :: 0 <= j < |kv| ==> kv[j].0 in w.rows && Owner(p, kv[j].0) == i
    ensures WorkerOk(p, i, ApplyAll(p, i, w, kv))
    ensures ApplyAll(p, i, w, kv).output == w.output && ApplyAll(p, i, w, kv).buffers == w.buffers
    decreases |kv|
  {
    if kv != [] {
      assert kv[0].0 == Put(i, kv).kv[0].0;
      AccumulateOk(p, i, w, kv[0].0, kv[0].1);
      assert PutOk(p, Put(i, kv[1..]));
      ApplyAllOk(p, i, AccumulateF1(p, i, w, kv[0].0, kv[0].1), kv[1..]);
    }
  }

  /** Every step keeps the cluster well formed, so the "No entry for requested key" CHECKs
      of the state table and the sharder's range checks cannot fire. */
  lemma StepOk<V(!new)>(p: Program<V>, c: Cluster<V>, a: Action<V>)
    requires ValidProgram(p) && ClusterOk(p, c) && Enabled(p, c, a)
    ensures ClusterOk(p, Step(p, c, a))
  {
    hide ClusterOk, Step;
    match a
    case Process(i, k) => ProcessOk(p, c, i, k);
    case Emit(i) => EmitOk(p, c, i);
    case Send(i, s, kv) => SendOk(p, c, i, s, kv);
    case Deliver(j) => DeliverOk(p, c, j);
  }

  /** Replacing one worker by a well-formed one. */
  lemma WorkerReplaced<V>(p: Program<V>, c: Cluster<V>, i: nat, w: Worker<V>)
    requires p.n > 0 && ClusterOk(p, c) && i < p.n && WorkerOk(p, i, w)
    ensures ClusterOk(p, c.(workers := c.workers[i := w]))
  {
    hide WorkerOk, PutOk;
  }

  lemma ProcessOk<V(!new)>(p: Program<V>, c: Cluster<V>, i: nat, k: Key)
    requires ValidProgram(p) && ClusterOk(p, c) && Enabled(p, c, Process(i, k))
    ensures ClusterOk(p, Step(p, c, Process(i, k)))
  {
    assert WorkerOk(p, i, c.workers[i]);
    WorkerReplaced(p, c, i, ProcessKey(p, c.workers[i], k));
  }

  lemma EmitOk<V(!new)>(p: Program<V>, c: Cluster<V>, i: nat)
    requires ValidProgram(p) && ClusterOk(p, c) && Enabled(p, c, Emit(i))
    ensures ClusterOk(p, Step(p, c, Emit(i)))
  {
    var w := c.workers[i];
    assert WorkerOk(p, i, w) && w.output[0].0 in p.keys;
    var w1 := w.(output := w.output[1..]);
    AccumulateOk(p, i, w1, w.output[0].0, w.output[0].1);
    WorkerReplaced(p, c, i, AccumulateF1(p, i, w1, w.output[0].0, w.output[0].1));
  }

  lemma SendOk<V(!new)>(p: Program<V>, c: Cluster<V>, i: nat, s: nat, kv: seq<(Key, V)>)
    requires ValidProgram(p) && ClusterOk(p, c) && Enabled(p, c, Send(i, s, kv))
    ensures ClusterOk(p, Step(p, c, Send(i, s, kv)))
  {
    var w := c.workers[i];
    assert WorkerOk(p, i, w) && InShard(p, s, w.buffers[s]);
    assert PutOk(p, Put(s, kv));
    WorkerReplaced(p, c, i, w.(buffers := w.buffers[s := map[]]));
  }

  lemma DeliverOk<V(!new)>(p: Program<V>, c: Cluster<V>, j: nat)
    requires ValidProgram(p) && ClusterOk(p, c) && Enabled(p, c, Deliver(j))
    ensures ClusterOk(p, Step(p, c, Deliver(j)))
  {
    var put := c.net[j];
    assert PutOk(p, put) && put == Put(put.shard, put.kv);
    ApplyAllOk(p, put.shard, c.workers[put.shard], put.kv);
    WorkerReplaced(p, c, put.shard, ApplyAll(p, put.shard, c.workers[put.shard], put.kv));
  }

  /** The cluster after MaiterKernel1: every key loaded at its owner, nothing in transit. */
  ghost function Initial<V>(p: Program<V>): (c: Cluster<V>)
    requires p.n > 0
    ensures ClusterOk(p, c)
  {
    Cluster(seq(p.n, i requires 0 <= i < p.n => InitialWorker(p, i)), [])
  }

  ghost function InitialWorker<V>(p: Program<V>, i: nat): (w: Worker<V>)
    requires p.n > 0
    ensures WorkerOk(p, i, w)
  {
    Worker(map k | k in p.keys && Owner(p, k) == i :: p.init(k), [], seq(p.n, _ => map[]))
  }
}
