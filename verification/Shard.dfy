/** A worker's state table and its part in the protocol: what MaiterKernel1 loads is the worker of
    the initial cluster, and a scan of the table is a run of the cluster. */
module Shard {
  import opened Collections
  import opened DeltaMonoid
  import opened Protocol
  import StateTable

  type Fields<V, D> = StateTable.Fields<V, D>

  /** F1 and F2 of every row. */
  function RowsOf<V, D>(m: map<Key, Fields<V, D>>): map<Key, Row<V>> {
    map k | k in m :: Row(m[k].f1, m[k].f2)
  }

  // ---------------------------------------------------------------- loading

  /** init_v, init_c and the data of a key. */
  ghost predicate Starts<V(!new), D(!new)>(p: Program<V>, init: Key -> Fields<V, D>) {
    forall k :: k in p.keys ==> Row(init(k).f1, init(k).f2) == p.init(k)
  }

  /** The rows a worker's table holds after loading are those of the worker of the initial
      cluster, so sharding by Sharding::Mod is what the protocol's owners are. */
  lemma LoadedIsInitial<V(!new), D(!new)>(p: Program<V>, init: Key -> Fields<V, D>, i: nat)
    requires p.n > 0 && i < p.n && Starts(p, init)
    ensures RowsOf(StateTable.ShardRows(p.keys, init, p.n, i)) == InitialWorker(p, i).rows
  {
  }

  /** And they fit into the preallocated buckets. */
  lemma InitialFits<V(!new)>(p: Program<V>, i: nat, limit: nat)
    requires p.n > 0 && i < p.n && forall k :: k in p.keys ==> k < limit
    ensures |InitialWorker(p, i).rows| <= limit / p.n + 1
  {
    StateTable.ShardFits(limit, p.n, i);
    var rows := InitialWorker(p, i).rows;
    assert rows.Keys <= StateTable.ShardKeys(limit, p.n, i);
    SubsetSize(rows.Keys, StateTable.ShardKeys(limit, p.n, i));
    assert |rows| == |rows.Keys|;
  }

  // ---------------------------------------------------------------- visits

  /** `m` is the table of worker `i`, and `g` with the rows' data is the program's kernel. */
  ghost predicate TableOf<V(!new), D(!new)>(
    p: Program<V>, c: Cluster<V>, i: nat, m: map<Key, Fields<V, D>>, g: StateTable.Kernel<Key, V, D>)
    requires p.n > 0 && ClusterOk(p, c)
  {
    && i < p.n && c.workers[i].rows == RowsOf(m)
    && forall k, d, v :: k in m ==> p.g(k, d, v) == g(k, d, v, m[k].f3)
  }

  /** The two clusters differ in worker `i` only. */
  ghost predicate OnlyWorker<V>(c: Cluster<V>, c': Cluster<V>, i: nat) {
    c'.net == c.net && |c'.workers| == |c.workers| &&
    forall j :: 0 <= j < |c.workers| && j != i ==> c'.workers[j] == c.workers[j]
  }

  /** The same data in every row. */
  ghost predicate SameData<V, D>(m: map<Key, Fields<V, D>>, m': map<Key, Fields<V, D>>) {
    m'.Keys == m.Keys && forall k :: k in m ==> m'[k].f3 == m[k].f3
  }

  lemma {:induction false} AccumulatedData<V, D>(m: map<Key, Fields<V, D>>, acc: (V, V) -> V, kv: seq<(Key, V)>)
    ensures SameData(m, StateTable.Accumulated(m, acc, kv))
    decreases |kv|
  {
    if kv != [] {
      var (k, x) := kv[0];
      var m1 := if k in m then m[k := m[k].(f1 := acc(m[k].f1, x))] else m;
      AccumulatedData(m1, acc, kv[1..]);
    }
  }

  /** Emitting the head of the output vector does to the rows what the table does. */
  lemma EmitRow<V(!new), D(!new)>(p: Program<V>, c: Cluster<V>, i: nat, m: map<Key, Fields<V, D>>)
    requires ValidProgram(p) && ClusterOk(p, c) && i < p.n
    requires c.workers[i].rows == RowsOf(m) && c.workers[i].output != []
    ensures var (k, x) := c.workers[i].output[0];
            var m1 := if k in m then m[k := m[k].(f1 := p.m.acc(m[k].f1, x))] else m;
            var c1 := Step(p, c, Emit(i));
            && c1.workers[i].rows == RowsOf(m1) && c1.workers[i].output == c.workers[i].output[1..]
            && OnlyWorker(c, c1, i)
  {
    assert WorkerOk(p, i, c.workers[i]);
    assert c.workers[i].output[0].0 in p.keys;
  }

  lemma {:induction false} EmitRows<V(!new), D(!new)>(p: Program<V>, c: Cluster<V>, i: nat, m: map<Key, Fields<V, D>>)
    returns (acts: seq<Action<V>>, c': Cluster<V>)
    requires ValidProgram(p) && ClusterOk(p, c) && i < p.n && c.workers[i].rows == RowsOf(m)
    ensures Feasible(p, c, acts) && Run(p, c, acts) == c' && Processes(acts) == 0
    ensures ClusterOk(p, c') && OnlyWorker(c, c', i) && c'.workers[i].output == []
    ensures c'.workers[i].rows == RowsOf(StateTable.Accumulated(m, p.m.acc, c.workers[i].output))
    decreases |c.workers[i].output|
  {
    if c.workers[i].output == [] {
      acts, c' := [], c;
    } else {
      hide Step, ClusterOk, ValidProgram;
      var (k, x) := c.workers[i].output[0];
      var m1 := if k in m then m[k := m[k].(f1 := p.m.acc(m[k].f1, x))] else m;
      EmitRow(p, c, i, m);
      StepOk(p, c, Emit(i));
      var more;
      more, c' := EmitRows(p, Step(p, c, Emit(i)), i, m1);
      acts := [Emit(i)] + more;
      assert acts[1..] == more;
    }
  }

  /** A visit of row `k` is a run of the cluster: one process step, and the emits. */
  lemma VisitIsRun<V(!new), D(!new)>(
    p: Program<V>, c: Cluster<V>, i: nat, m: map<Key, Fields<V, D>>, g: StateTable.Kernel<Key, V, D>, k: Key)
    returns (acts: seq<Action<V>>, c': Cluster<V>)
    requires ValidProgram(p) && ClusterOk(p, c) && TableOf(p, c, i, m, g) && c.workers[i].output == [] && k in m
    ensures Feasible(p, c, acts) && Run(p, c, acts) == c' && Processes(acts) == 1 && acts[0] == Process(i, k)
    ensures ClusterOk(p, c') && OnlyWorker(c, c', i) && c'.workers[i].output == []
    ensures TableOf(p, c', i, StateTable.AfterVisit(m, p.m.acc, g, p.m.zero, k), g)
  {
    var a := Process(i, k);
    StepOk(p, c, a);
    var c1 := Step(p, c, a);
    var row := m[k];
    var value := p.m.acc(row.f2, row.f1);
    var m1 := m[k := StateTable.Fields(p.m.zero, value, row.f3)];
    assert c1.workers[i].rows == RowsOf(m1) && c1.workers[i].output == g(k, row.f1, value, row.f3);
    var more;
    more, c' := EmitRows(p, c1, i, m1);
    AccumulatedData(m1, p.m.acc, c1.workers[i].output);
    acts := [a] + more;
    assert acts[1..] == more;
  }

  /** A scan that visits the keys `ks` is a run with as many process steps. */
  lemma {:induction false} ScanIsRun<V(!new), D(!new)>(
    p: Program<V>, c: Cluster<V>, i: nat, m: map<Key, Fields<V, D>>, g: StateTable.Kernel<Key, V, D>, ks: seq<Key>)
    returns (acts: seq<Action<V>>, c': Cluster<V>)
    requires ValidProgram(p) && ClusterOk(p, c) && TableOf(p, c, i, m, g) && c.workers[i].output == []
    requires StateTable.AllIn(ks, m)
    ensures Feasible(p, c, acts) && Run(p, c, acts) == c' && Processes(acts) == |ks|
    ensures ClusterOk(p, c') && OnlyWorker(c, c', i) && c'.workers[i].output == []
    ensures TableOf(p, c', i, StateTable.AfterVisits(m, p.m.acc, g, p.m.zero, ks), g)
    decreases |ks|
  {
    if ks == [] {
      acts, c' := [], c;
    } else {
      var before, last := ks[..|ks| - 1], ks[|ks| - 1];
      var first, c1 := ScanIsRun(p, c, i, m, g, before);
      var more;
      more, c' := VisitIsRun(p, c1, i, StateTable.AfterVisits(m, p.m.acc, g, p.m.zero, before), g, last);
      RunConcat(p, c, first, more);
      ProcessesConcat(first, more);
      acts := first + more;
    }
  }
}
