/** The end-of-kernel barrier: a flush round (every worker ships its buffers) and then an
    apply round (every worker applies what it received). With no kernel running and every
    flushed message delivered, each key's whole residual ends up in its owner's F1. */
module Barrier {
  import opened Collections
  import opened DeltaMonoid
  import opened Protocol
  import opened Refinement
  import opened Runs
  import GlobalTable

  /** No kernel is between its process step and the end of its sending loop. */
  ghost predicate KernelsIdle<V>(c: Cluster<V>) {
    forall i :: 0 <= i < |c.workers| ==> c.workers[i].output == []
  }

  ghost predicate BuffersEmpty<V>(w: Worker<V>) {
    forall s :: 0 <= s < |w.buffers| ==> w.buffers[s] == map[]
  }

  ghost predicate Flushed<V>(c: Cluster<V>) {
    forall i :: 0 <= i < |c.workers| ==> BuffersEmpty(c.workers[i])
  }

  /** Nothing is in a combining buffer or on the network. */
  ghost predicate Drained<V>(c: Cluster<V>) { Flushed(c) && c.net == [] }

  lemma {:induction false} QuietRun<V(!new)>(p: Program<V>, c: Cluster<V>, acts: seq<Action<V>>)
    requires ValidProgram(p) && ClusterOk(p, c) && Feasible(p, c, acts) && Processes(acts) == 0
    ensures Abs(p, Run(p, c, acts)) == Abs(p, c)
    decreases |acts|
  {
    if acts != [] {
      QuietStep(p, c, acts[0]);
      QuietRun(p, Step(p, c, acts[0]), acts[1..]);
    }
  }

  lemma HeldWhenDrained<V(!new)>(p: Program<V>, i: nat, w: Worker<V>, k: Key)
    requires p.n > 0 && Lawful(p.m) && WorkerOk(p, i, w) && w.output == [] && BuffersEmpty(w)
    ensures Held(p, w, k) == RowDelta(p.m, w, k)
  {
    Unit(p.m, p.m.zero);
    Unit(p.m, RowDelta(p.m, w, k));
  }

  /** In a drained cluster the residual of a key is its owner's F1. */
  lemma DrainedResidual<V(!new)>(p: Program<V>, c: Cluster<V>, k: Key)
    requires ValidProgram(p) && ClusterOk(p, c) && KernelsIdle(c) && Drained(c) && k in p.keys
    ensures k in c.workers[Owner(p, k)].rows
    ensures Residual(p, c, k) == c.workers[Owner(p, k)].rows[k].delta
  {
    var o := Owner(p, k);
    forall i | 0 <= i < p.n
      ensures Held(p, c.workers[i], k) == RowDelta(p.m, c.workers[i], k)
      ensures k in c.workers[i].rows <==> i == o
    {
      assert WorkerOk(p, i, c.workers[i]);
      HeldWhenDrained(p, i, c.workers[i], k);
    }
    HeldSplit(p, c.workers, o, k);
    HeldAllZero(p, Without(c.workers, o), k);
    Unit(p.m, c.workers[o].rows[k].delta);
  }

  /** Whatever the order of the flushes and deliveries: once the cluster is drained, every
      key's whole residual is in its owner's F1, and no value has changed. */
  lemma AfterBarrier<V(!new)>(p: Program<V>, c: Cluster<V>, acts: seq<Action<V>>)
    requires ValidProgram(p) && ClusterOk(p, c) && Feasible(p, c, acts) && Processes(acts) == 0
    requires KernelsIdle(Run(p, c, acts)) && Drained(Run(p, c, acts))
    ensures forall k :: k in p.keys ==> k in Run(p, c, acts).workers[Owner(p, k)].rows
    ensures forall k :: k in p.keys ==> Run(p, c, acts).workers[Owner(p, k)].rows[k].delta == Residual(p, c, k)
    ensures forall k :: k in p.keys ==> ValueOf(p, Run(p, c, acts), k) == ValueOf(p, c, k)
  {
    hide Residual, Run, Feasible;
    QuietRun(p, c, acts);
    var c' := Run(p, c, acts);
    forall k | k in p.keys
      ensures k in c'.workers[Owner(p, k)].rows && c'.workers[Owner(p, k)].rows[k].delta == Residual(p, c, k)
      ensures ValueOf(p, c', k) == ValueOf(p, c, k)
    {
      DrainedResidual(p, c', k);
      assert Abs(p, c')[k] == Abs(p, c)[k];
    }
  }

  /** Applying a PUT creates no new remote delta: it touches rows only, and the network shrinks. */
  lemma DeliverOnlyApplies<V(!new)>(p: Program<V>, c: Cluster<V>, j: nat)
    requires ValidProgram(p) && ClusterOk(p, c) && j < |c.net|
    ensures var c' := Step(p, c, Deliver(j));
            && |c'.net| == |c.net| - 1 && |c'.workers| == |c.workers|
            && forall i :: 0 <= i < p.n ==>
                 c'.workers[i].buffers == c.workers[i].buffers && c'.workers[i].output == c.workers[i].output
  {
    var put := c.net[j];
    assert PutOk(p, put) && put == Put(put.shard, put.kv);
    ApplyAllOk(p, put.shard, c.workers[put.shard], put.kv);
  }

  /** Flushing one shard of one worker. */
  method FlushShard<V(!new)>(p: Program<V>, c: Cluster<V>, i: nat, s: nat)
    returns (c': Cluster<V>, ghost acts: seq<Action<V>>)
    requires ValidProgram(p) && ClusterOk(p, c) && i < p.n && s < p.n
    ensures ClusterOk(p, c') && Feasible(p, c, acts) && c' == Run(p, c, acts) && Processes(acts) == 0
    ensures c'.workers == c.workers[i := c.workers[i].(buffers := c.workers[i].buffers[s := map[]])]
  {
    assert WorkerOk(p, i, c.workers[i]);
    acts, c' := [], c;
    if s != i && c.workers[i].buffers[s] != map[] {
      var kv := GlobalTable.Serialize(c.workers[i].buffers[s]);
      OneStep(p, c, acts, Send(i, s, kv));
      acts := acts + [Send(i, s, kv)];
      c' := Cluster(c.workers[i := c.workers[i].(buffers := c.workers[i].buffers[s := map[]])], c.net + [Put(s, kv)]);
    } else {
      assert c.workers[i].buffers[s := map[]] == c.workers[i].buffers;
      assert c.workers[i := c.workers[i]] == c.workers;
    }
  }

  /** MTYPE_WORKER_FLUSH at one worker: SendUpdates over all its shards. */
  method FlushWorker<V(!new)>(p: Program<V>, c: Cluster<V>, i: nat) returns (c': Cluster<V>, ghost acts: seq<Action<V>>)
    requires ValidProgram(p) && ClusterOk(p, c) && i < p.n
    ensures ClusterOk(p, c') && Feasible(p, c, acts) && c' == Run(p, c, acts) && Processes(acts) == 0
    ensures c'.workers == c.workers[i := c'.workers[i]]
    ensures c'.workers[i].output == c.workers[i].output && BuffersEmpty(c'.workers[i])
  {
    acts, c' := [], c;
    assert WorkerOk(p, i, c.workers[i]);
    for s := 0 to p.n
      invariant ClusterOk(p, c') && Feasible(p, c, acts) && c' == Run(p, c, acts) && Processes(acts) == 0
      invariant c'.workers == c.workers[i := c'.workers[i]] && c'.workers[i].output == c.workers[i].output
      invariant |c'.workers[i].buffers| == p.n && forall l :: 0 <= l < s ==> c'.workers[i].buffers[l] == map[]
    {
      ghost var more;
      c', more := FlushShard(p, c', i, s);
      RunConcat(p, c, acts, more);
      ProcessesConcat(acts, more);
      acts := acts + more;
    }
  }

  /** The flush round: MTYPE_WORKER_FLUSH at every worker. */
  method FlushRound<V(!new)>(p: Program<V>, c: Cluster<V>) returns (c': Cluster<V>, ghost acts: seq<Action<V>>)
    requires ValidProgram(p) && ClusterOk(p, c) && KernelsIdle(c)
    ensures ClusterOk(p, c') && Feasible(p, c, acts) && c' == Run(p, c, acts) && Processes(acts) == 0
    ensures KernelsIdle(c') && Flushed(c')
  {
    acts, c' := [], c;
    for i := 0 to p.n
      invariant ClusterOk(p, c') && Feasible(p, c, acts) && c' == Run(p, c, acts) && Processes(acts) == 0
      invariant KernelsIdle(c')
      invariant forall l :: 0 <= l < i ==> BuffersEmpty(c'.workers[l])
    {
      ghost var more;
      c', more := FlushWorker(p, c', i);
      RunConcat(p, c, acts, more);
      ProcessesConcat(acts, more);
      acts := acts + more;
    }
  }

  /** The apply round: MTYPE_WORKER_APPLY at every worker, draining the delivered PUTs. */
  method ApplyRound<V(!new)>(p: Program<V>, c: Cluster<V>) returns (c': Cluster<V>, ghost acts: seq<Action<V>>)
    requires ValidProgram(p) && ClusterOk(p, c) && KernelsIdle(c) && Flushed(c)
    ensures ClusterOk(p, c') && Feasible(p, c, acts) && c' == Run(p, c, acts) && Processes(acts) == 0
    ensures KernelsIdle(c') && Drained(c') && |acts| == |c.net|
  {
    acts, c' := [], c;
    while c'.net != []
      invariant ClusterOk(p, c') && Feasible(p, c, acts) && c' == Run(p, c, acts) && Processes(acts) == 0
      invariant KernelsIdle(c') && Flushed(c') && |acts| + |c'.net| == |c.net|
      decreases |c'.net|
    {
      var j :| 0 <= j < |c'.net|;
      OneStep(p, c, acts, Deliver(j));
      DeliverOnlyApplies(p, c', j);
      StepOk(p, c', Deliver(j));
      ProcessesConcat(acts, [Deliver(j)]);
      acts := acts + [Deliver(j)];
      ghost var before := c';
      c' := ApplyPut(p, c', j);
      assert forall i :: 0 <= i < p.n ==> BuffersEmpty(before.workers[i]) && BuffersEmpty(c'.workers[i]);
    }
  }

  method ApplyPut<V(!new)>(p: Program<V>, c: Cluster<V>, j: nat) returns (c': Cluster<V>)
    requires ValidProgram(p) && ClusterOk(p, c) && j < |c.net|
    ensures c' == Step(p, c, Deliver(j))
  {
    var put := c.net[j];
    assert PutOk(p, put) && put == Put(put.shard, put.kv);
    ApplyAllOk(p, put.shard, c.workers[put.shard], put.kv);
    c' := Cluster(c.workers[put.shard := ApplyAll(p, put.shard, c.workers[put.shard], put.kv)], Without(c.net, j));
  }

  /** The whole barrier always completes, with every residual in its owner's F1. */
  method Synchronize<V(!new)>(p: Program<V>, c: Cluster<V>) returns (c': Cluster<V>)
    requires ValidProgram(p) && ClusterOk(p, c) && KernelsIdle(c)
    ensures ClusterOk(p, c') && KernelsIdle(c') && Drained(c')
    ensures forall k :: k in p.keys ==> k in c'.workers[Owner(p, k)].rows
    ensures forall k :: k in p.keys ==> c'.workers[Owner(p, k)].rows[k].delta == Residual(p, c, k)
    ensures forall k :: k in p.keys ==> ValueOf(p, c', k) == ValueOf(p, c, k)
  {
    var c1; ghost var flush;
    c1, flush := FlushRound(p, c);
    ghost var apply;
    c', apply := ApplyRound(p, c1);
    RunConcat(p, c, flush, apply);
    ProcessesConcat(flush, apply);
    AfterBarrier(p, c, flush + apply);
  }
}
