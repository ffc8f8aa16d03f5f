/** The code each worker runs: the partitioned table with its combining buffers, and the
    process step of the iteration kernel. Every method is proved to perform a schedule of
    the protocol machine, so the theorems about schedules are theorems about this code. */
module GlobalTable {
  import opened Collections
  import opened DeltaMonoid
  import opened Protocol

  /** serializeToNet: the entries of a buffer, in whatever order its buckets give. */
  method Serialize<V(!new)>(b: map<Key, V>) returns (kv: seq<(Key, V)>)
    ensures Lists(kv, b)
  {
    kv := [];
    var todo := b.Keys;
    ghost var done: map<Key, V> := map[];
    while todo != {}
      invariant todo <= b.Keys && done == b - todo && Lists(kv, done)
      decreases todo
    {
      var k :| k in todo;
      ListsOneMore(kv, done, k, b[k]);
      kv := kv + [(k, b[k])];
      todo := todo - {k};
      done := done[k := b[k]];
    }
    assert b - {} == b;
  }

  function Assign<V>(b: map<Key, V>, k: Key, x: V): map<Key, V> { b[k := x] }

  /** The cluster `c` after worker `i` became `w`, with `net` left of the network and `puts`
      added to it. */
  ghost function After<V>(c: Cluster<V>, i: nat, w: Worker<V>, net: seq<Put<V>>, puts: seq<Put<V>>): Cluster<V>
    requires i < |c.workers|
  {
    Cluster(c.workers[i := w], net + puts)
  }

  lemma AfterAfter<V>(c: Cluster<V>, i: nat, w: Worker<V>, net: seq<Put<V>>, puts: seq<Put<V>>,
                      w': Worker<V>, puts': seq<Put<V>>)
    requires i < |c.workers|
    ensures After(After(c, i, w, net, puts), i, w', net + puts, puts') == After(c, i, w', net, puts + puts')
  {
    assert c.workers[i := w][i := w'] == c.workers[i := w'];
    assert net + puts + puts' == net + (puts + puts');
  }

  /** One run followed by another that takes nothing from the network is a run. */
  lemma Compose<V(!new)>(p: Program<V>, c: Cluster<V>, a: seq<Action<V>>, b: seq<Action<V>>, i: nat,
                         w: Worker<V>, net: seq<Put<V>>, puts: seq<Put<V>>, w': Worker<V>, puts': seq<Put<V>>)
    requires ValidProgram(p) && ClusterOk(p, c) && Feasible(p, c, a) && i < p.n
    requires Run(p, c, a) == After(c, i, w, net, puts)
    requires Feasible(p, Run(p, c, a), b)
    requires Run(p, Run(p, c, a), b) == After(Run(p, c, a), i, w', Run(p, c, a).net, puts')
    ensures Feasible(p, c, a + b) && Run(p, c, a + b) == After(c, i, w', net, puts + puts')
  {
    RunConcat(p, c, a, b);
    AfterAfter(c, i, w, net, puts, w', puts');
  }

  /** One run that leaves the network alone, followed by another. */
  lemma ComposeFront<V(!new)>(p: Program<V>, c: Cluster<V>, a: seq<Action<V>>, b: seq<Action<V>>, i: nat,
                              w: Worker<V>, w': Worker<V>, net: seq<Put<V>>)
    requires ValidProgram(p) && ClusterOk(p, c) && Feasible(p, c, a) && i < p.n
    requires Run(p, c, a) == After(c, i, w, c.net, [])
    requires Feasible(p, Run(p, c, a), b) && Run(p, Run(p, c, a), b) == After(Run(p, c, a), i, w', net, [])
    ensures Feasible(p, c, a + b) && Run(p, c, a + b) == After(c, i, w', net, [])
  {
    RunConcat(p, c, a, b);
    assert c.workers[i := w][i := w'] == c.workers[i := w'];
  }

  // ---------------------------------------------------------------- arrivals

  /** Distinct positions of a list of length `n`, in any order. */
  ghost predicate Positions(n: nat, at: seq<nat>) {
    NoDup(at) && forall j :: 0 <= j < |at| ==> at[j] < n
  }

  /** Where the elements at `at` stand once the element at `p` is gone. */
  function Renumbered(at: seq<nat>, p: nat): (r: seq<nat>)
    ensures |r| == |at|
    ensures forall j :: 0 <= j < |at| ==> r[j] == if at[j] > p then at[j] - 1 else at[j]
  {
    seq(|at|, (j: nat) requires j < |at| => if at[j] > p then at[j] - 1 else at[j])
  }

  lemma RenumberedPositions<T>(s: seq<T>, at: seq<nat>)
    requires Positions(|s|, at) && at != []
    ensures |s| > 0 && Positions(|s| - 1, Renumbered(at[1..], at[0]))
    ensures forall j :: 0 <= j < |at| - 1 ==> Without(s, at[0])[Renumbered(at[1..], at[0])[j]] == s[at[j + 1]]
  {
    var r := Renumbered(at[1..], at[0]);
    assert at[0] < |s|;
    forall j | 0 <= j < |r|
      ensures r[j] < |s| - 1 && Without(s, at[0])[r[j]] == s[at[j + 1]]
    {
      assert at[1..][j] == at[j + 1] != at[0];
    }
    forall i, j | 0 <= i < j < |r|
      ensures r[i] != r[j]
    {
      assert at[i + 1] != at[j + 1] && at[i + 1] != at[0] && at[j + 1] != at[0];
    }
  }

  /** The list without the elements at the given positions. */
  ghost function Taken<T>(s: seq<T>, at: seq<nat>): (r: seq<T>)
    requires Positions(|s|, at)
    decreases |at|
  {
    if at == [] then s
    else
      RenumberedPositions(s, at);
      Taken(Without(s, at[0]), Renumbered(at[1..], at[0]))
  }

  /** What was taken and what is left are all there was. */
  lemma {:induction false} TakenRest<T>(s: seq<T>, at: seq<nat>, out: seq<T>)
    requires Positions(|s|, at) && |out| == |at| && forall j :: 0 <= j < |at| ==> out[j] == s[at[j]]
    ensures multiset(Taken(s, at)) + multiset(out) == multiset(s)
    decreases |at|
  {
    if at != [] {
      RenumberedPositions(s, at);
      TakenRest(Without(s, at[0]), Renumbered(at[1..], at[0]), out[1..]);
      WithoutElements(s, at[0]);
      WithoutElements(out, 0);
      assert Without(out, 0) == out[1..];
    }
  }

  /** `arrived` are messages for worker `i`, standing anywhere in `net`, read in any order. */
  ghost predicate Arriving<V>(net: seq<Put<V>>, at: seq<nat>, arrived: seq<Put<V>>, i: nat)
    ensures Arriving(net, at, arrived, i) ==> Positions(|net|, at)
  {
    && Positions(|net|, at) && |arrived| == |at|
    && forall j :: 0 <= j < |at| ==> net[at[j]] == arrived[j] && arrived[j].shard == i
  }

  lemma NextArrival<V>(net: seq<Put<V>>, at: seq<nat>, arrived: seq<Put<V>>, i: nat)
    requires Arriving(net, at, arrived, i) && at != []
    ensures Arriving(Without(net, at[0]), Renumbered(at[1..], at[0]), arrived[1..], i)
    ensures Taken(net, at) == Taken(Without(net, at[0]), Renumbered(at[1..], at[0]))
  {
    RenumberedPositions(net, at);
  }

  lemma ArrivingFirst<V>(net: seq<Put<V>>, at: seq<nat>, arrived: seq<Put<V>>, i: nat)
    requires Arriving(net, at, arrived, i) && arrived != []
    ensures at != [] && at[0] < |net| && net[at[0]] == arrived[0] && arrived[0].shard == i
  {
  }

  lemma NoneArriving<V>(net: seq<Put<V>>, at: seq<nat>, i: nat)
    requires Arriving(net, at, [], i)
    ensures Taken(net, at) == net
  {
  }

  /** Delivering the message at `j` to its own worker, which is `w` by now. */
  lemma DeliverOne<V(!new)>(p: Program<V>, c: Cluster<V>, acts: seq<Action<V>>, i: nat, w: Worker<V>,
                            net: seq<Put<V>>, j: nat)
    requires ValidProgram(p) && ClusterOk(p, c) && Feasible(p, c, acts) && i < p.n && j < |net|
    requires Run(p, c, acts) == After(c, i, w, net, []) && net[j].shard == i
    ensures PutOk(p, net[j]) && WorkerOk(p, i, w)
    ensures forall l :: 0 <= l < |net[j].kv| ==> net[j].kv[l].0 in w.rows && Owner(p, net[j].kv[l].0) == i
    ensures Feasible(p, c, acts + [Deliver(j)])
    ensures Run(p, c, acts + [Deliver(j)]) == After(c, i, ApplyAll(p, i, w, net[j].kv), Without(net, j), [])
  {
    var c', kv := Run(p, c, acts), net[j].kv;
    assert c'.net == net && c'.workers[i] == w;
    assert PutOk(p, c'.net[j]) && net[j] == Put(i, kv) && WorkerOk(p, i, c'.workers[i]);
    ApplyAllOk(p, i, w, kv);
    OneStep(p, c, acts, Deliver(j));
    assert c.workers[i := w][i := ApplyAll(p, i, w, kv)] == c.workers[i := ApplyAll(p, i, w, kv)];
  }

  /** A worker's table. The PUT requests it hands to the network are returned, oldest first. */
  class Table<V(!new)> {
    const p: Program<V>
    const id: nat
    const bufmsg: nat
    var rows: map<Key, Row<V>>
    var buffers: seq<map<Key, V>>
    var pendingWrites: nat

    ghost predicate Valid()
      reads this
    {
      p.n > 0 && id < p.n && |buffers| == p.n
    }

    /** This worker in the protocol machine, with `output` still to be emitted. */
    ghost function View(output: seq<(Key, V)>): Worker<V>
      reads this
    {
      Worker(rows, output, buffers)
    }

    constructor (p: Program<V>, id: nat, bufmsg: nat)
      requires p.n > 0 && id < p.n
      ensures Valid() && this.p == p && this.id == id && this.bufmsg == bufmsg
      ensures View([]) == InitialWorker(p, id) && pendingWrites == 0
    {
      this.p, this.id, this.bufmsg := p, id, bufmsg;
      rows := map k | k in p.keys && Owner(p, k) == id :: p.init(k);
      buffers := seq(p.n, _ => map[]);
      pendingWrites := 0;
    }

    method AccumulateF2(k: Key, v: V)
      requires Valid() && (Owner(p, k) == id ==> k in rows)
      modifies this`rows
      ensures Valid()
      ensures Owner(p, k) != id ==> rows == old(rows)
      ensures Owner(p, k) == id ==>
                rows == old(rows)[k := Row(old(rows)[k].delta, p.m.acc(old(rows)[k].value, v))]
    {
      if Owner(p, k) == id {
        rows := rows[k := rows[k].(value := p.m.acc(rows[k].value, v))];
      }
    }

    method UpdateF1(k: Key, v: V)
      requires Valid()
      requires if Owner(p, k) == id then k in rows else k in buffers[Owner(p, k)]
      modifies this`rows, this`buffers
      ensures Valid()
      ensures Owner(p, k) == id ==>
                rows == old(rows)[k := Row(v, old(rows)[k].value)] && buffers == old(buffers)
      ensures Owner(p, k) != id ==>
                rows == old(rows) && buffers == old(buffers)[Owner(p, k) := Assign(old(buffers)[Owner(p, k)], k, v)]
    {
      var s := Owner(p, k);
      if s == id {
        rows := rows[k := rows[k].(delta := v)];
      } else {
        buffers := buffers[s := Assign(buffers[s], k, v)];
      }
    }

    /** One round of SendUpdates: ships and empties the buffer of a remote shard. */
    method SendShard(s: nat, ghost c: Cluster<V>, ghost output: seq<(Key, V)>)
      returns (puts: seq<Put<V>>, ghost acts: seq<Action<V>>)
      requires Valid() && ValidProgram(p) && ClusterOk(p, c) && c.workers[id] == View(output) && s < p.n
      modifies this`buffers
      ensures Valid() && buffers == old(buffers)[s := map[]]
      ensures Feasible(p, c, acts) && Run(p, c, acts) == After(c, id, View(output), c.net, puts)
      ensures Processes(acts) == 0
    {
      assert WorkerOk(p, id, c.workers[id]);
      acts, puts := [], [];
      if s != id && buffers[s] != map[] {
        var kv := Serialize(buffers[s]);
        OneStep(p, c, acts, Send(id, s, kv));
        acts, puts := acts + [Send(id, s, kv)], [Put(s, kv)];
        buffers := buffers[s := map[]];
      }
    }

    /** Ships and empties every non-empty remote buffer. */
    method SendUpdates(ghost c: Cluster<V>, ghost output: seq<(Key, V)>)
      returns (puts: seq<Put<V>>, ghost acts: seq<Action<V>>)
      requires Valid() && ValidProgram(p) && ClusterOk(p, c) && c.workers[id] == View(output)
      modifies this`buffers, this`pendingWrites
      ensures Valid() && pendingWrites == 0
      ensures buffers == seq(p.n, _ => map[])
      ensures Feasible(p, c, acts) && Run(p, c, acts) == After(c, id, View(output), c.net, puts)
      ensures Processes(acts) == 0
    {
      acts, puts := [], [];
      for i := 0 to p.n
        invariant Valid()
        invariant forall s :: 0 <= s < i ==> buffers[s] == map[]
        invariant Feasible(p, c, acts) && Run(p, c, acts) == After(c, id, View(output), c.net, puts)
        invariant Processes(acts) == 0
      {
        ghost var w := View(output);
        var out; ghost var more;
        out, more := SendShard(i, Run(p, c, acts), output);
        Compose(p, c, acts, more, id, w, c.net, puts, View(output), out);
        ProcessesConcat(acts, more);
        acts, puts := acts + more, puts + out;
      }
      pendingWrites := 0;
    }

    /** Accumulates into the local row or the owner's buffer, and flushes the buffers when
        more than `bufmsg` writes are pending. */
    method AccumulateF1(k: Key, x: V, ghost c: Cluster<V>, ghost output: seq<(Key, V)>)
      returns (puts: seq<Put<V>>, ghost acts: seq<Action<V>>)
      requires Valid() && ValidProgram(p) && ClusterOk(p, c)
      requires Owner(p, k) == id ==> k in rows
      requires c.workers[id] == Protocol.AccumulateF1(p, id, View(output), k, x)
      modifies this
      ensures Valid()
      ensures Owner(p, k) == id || old(pendingWrites) + 1 <= bufmsg ==>
                acts == [] && puts == [] && View(output) == c.workers[id]
      ensures Owner(p, k) == id ==> pendingWrites == old(pendingWrites)
      ensures Owner(p, k) != id ==>
                pendingWrites == if old(pendingWrites) + 1 > bufmsg then 0 else old(pendingWrites) + 1
      ensures Feasible(p, c, acts) && Run(p, c, acts) == After(c, id, View(output), c.net, puts)
      ensures Processes(acts) == 0
    {
      acts, puts := [], [];
      var s := Owner(p, k);
      if s == id {
        rows := rows[k := rows[k].(delta := p.m.acc(rows[k].delta, x))];
      } else {
        var b := buffers[s];
        buffers := buffers[s := Assign(b, k, if k in b then p.m.acc(b[k], x) else x)];
        pendingWrites := pendingWrites + 1;
        if pendingWrites > bufmsg {
          puts, acts := SendUpdates(c, output);
        }
      }
    }

    /** ApplyUpdates: accumulates every pair of a PUT for this worker's shard. */
    method ApplyUpdates(put: Put<V>, ghost c: Cluster<V>, ghost output: seq<(Key, V)>)
      requires Valid() && ValidProgram(p) && ClusterOk(p, c) && c.workers[id] == View(output)
      requires PutOk(p, put) && put.shard == id
      modifies this
      ensures Valid() && buffers == old(buffers)
      ensures pendingWrites == old(pendingWrites)
      ensures forall j :: 0 <= j < |put.kv| ==> put.kv[j].0 in old(rows) && Owner(p, put.kv[j].0) == id
      ensures View(output) == ApplyAll(p, id, old(View(output)), put.kv)
    {
      assert WorkerOk(p, id, c.workers[id]);
      ghost var kv := put.kv;
      ApplyAllOk(p, id, c.workers[id], kv);
      ghost var goal := ApplyAll(p, id, c.workers[id], kv);
      for j := 0 to |put.kv|
        invariant Valid() && buffers == old(buffers) && pendingWrites == old(pendingWrites)
        invariant WorkerOk(p, id, View(output)) && PutOk(p, Put(id, kv))
        invariant kv == put.kv[j..]
        invariant forall l :: 0 <= l < |kv| ==> kv[l].0 in rows && Owner(p, kv[l].0) == id
        invariant ApplyAll(p, id, View(output), kv) == goal
      {
        assert kv[0] == put.kv[j];
        ghost var w := Protocol.AccumulateF1(p, id, View(output), kv[0].0, kv[0].1);
        AccumulateOk(p, id, View(output), kv[0].0, kv[0].1);
        ghost var c' := c.(workers := c.workers[id := w]);
        assert ClusterOk(p, c');
        var puts; ghost var acts;
        puts, acts := AccumulateF1(put.kv[j].0, put.kv[j].1, c', output);
        kv := kv[1..];
      }
    }

    /** HandlePutRequest: applies the PUT requests that have arrived, from anywhere in the
        network and in the order in which they are read. */
    method HandlePutRequests(arrived: seq<Put<V>>, ghost at: seq<nat>, ghost c: Cluster<V>, ghost output: seq<(Key, V)>)
      returns (ghost acts: seq<Action<V>>)
      requires Valid() && ValidProgram(p) && ClusterOk(p, c) && c.workers[id] == View(output)
      requires Arriving(c.net, at, arrived, id)
      modifies this
      ensures Valid() && buffers == old(buffers)
      ensures Feasible(p, c, acts) && Run(p, c, acts) == After(c, id, View(output), Taken(c.net, at), [])
      ensures Processes(acts) == 0 && |acts| == |arrived|
    {
      hide Arriving, Taken, ApplyAll, Positions;
      acts := [];
      ghost var net, todo := c.net, at;
      assert arrived[0..] == arrived;
      for j := 0 to |arrived|
        invariant Valid() && buffers == old(buffers)
        invariant Processes(acts) == 0 && |acts| == j
        invariant Arriving(net, todo, arrived[j..], id) && Taken(net, todo) == Taken(c.net, at)
        invariant Feasible(p, c, acts) && Run(p, c, acts) == After(c, id, View(output), net, [])
      {
        ArrivingFirst(net, todo, arrived[j..], id);
        NextArrival(net, todo, arrived[j..], id);
        assert arrived[j..][1..] == arrived[j + 1..];
        DeliverOne(p, c, acts, id, View(output), net, todo[0]);
        ApplyUpdates(arrived[j], Run(p, c, acts), output);
        ProcessesConcat(acts, [Deliver(todo[0])]);
        acts := acts + [Deliver(todo[0])];
        net, todo := Without(net, todo[0]), Renumbered(todo[1..], todo[0]);
      }
      NoneArriving(net, todo, id);
    }

    /** The first half of run_iter: v = v + delta, g(delta), delta = default. */
    method ProcessDelta(k: Key, ghost c: Cluster<V>) returns (output: seq<(Key, V)>, ghost acts: seq<Action<V>>)
      requires Valid() && ValidProgram(p) && ClusterOk(p, c) && c.workers[id] == View([]) && k in rows
      modifies this`rows, this`buffers
      ensures Valid()
      ensures acts == [Process(id, k)] && Feasible(p, c, acts)
      ensures Run(p, c, acts) == After(c, id, View(output), c.net, [])
    {
      assert WorkerOk(p, id, c.workers[id]);
      AccumulateF2(k, rows[k].delta);
      output := p.g(k, rows[k].delta, rows[k].value);
      UpdateF1(k, p.m.zero);
      acts := [];
      OneStep(p, c, acts, Process(id, k));
      acts := acts + [Process(id, k)];
      assert Run(p, c, acts).workers[id] == View(output);
    }

    /** One turn of run_iter's sending loop. */
    method EmitOne(x: (Key, V), ghost rest: seq<(Key, V)>, ghost c: Cluster<V>)
      returns (puts: seq<Put<V>>, ghost acts: seq<Action<V>>)
      requires Valid() && ValidProgram(p) && ClusterOk(p, c) && c.workers[id] == View([x] + rest)
      modifies this
      ensures Valid()
      ensures Feasible(p, c, acts) && Run(p, c, acts) == After(c, id, View(rest), c.net, puts)
      ensures Processes(acts) == 0
    {
      assert WorkerOk(p, id, c.workers[id]);
      assert ([x] + rest)[1..] == rest && ([x] + rest)[0] == x;
      assert x.0 in p.keys;
      acts := [];
      OneStep(p, c, acts, Emit(id));
      acts := acts + [Emit(id)];
      ghost var c', w := Run(p, c, acts), Run(p, c, acts).workers[id];
      var out; ghost var more;
      out, more := AccumulateF1(x.0, x.1, c', rest);
      assert c' == After(c, id, w, c.net, []);
      Compose(p, c, acts, more, id, w, c.net, [], View(rest), out);
      ProcessesConcat(acts, more);
      acts, puts := acts + more, [] + out;
    }

    /** run_iter's sending loop. */
    method EmitOutputs(output: seq<(Key, V)>, ghost c: Cluster<V>)
      returns (puts: seq<Put<V>>, ghost acts: seq<Action<V>>)
      requires Valid() && ValidProgram(p) && ClusterOk(p, c) && c.workers[id] == View(output)
      modifies this
      ensures Valid()
      ensures Feasible(p, c, acts) && Run(p, c, acts) == After(c, id, View([]), c.net, puts)
      ensures Processes(acts) == 0
    {
      acts, puts := [], [];
      ghost var rest := output;
      for i := 0 to |output|
        invariant Valid() && rest == output[i..] && Processes(acts) == 0
        invariant Feasible(p, c, acts) && Run(p, c, acts) == After(c, id, View(rest), c.net, puts)
      {
        ghost var w := View(rest);
        assert rest == [output[i]] + rest[1..];
        var out; ghost var more;
        out, more := EmitOne(output[i], rest[1..], Run(p, c, acts));
        rest := rest[1..];
        Compose(p, c, acts, more, id, w, c.net, puts, View(rest), out);
        ProcessesConcat(acts, more);
        acts, puts := acts + more, puts + out;
      }
    }

    /** run_iter: fold the delta of `k` into its value, compute the outputs, reset the delta,
        apply whatever has arrived and is read if the timer fires, then send the outputs one by one.
        The whole call is a schedule of the machine with exactly one process step. */
    method RunIter(k: Key, arrived: seq<Put<V>>, ghost at: seq<nat>, ghost c: Cluster<V>)
      returns (puts: seq<Put<V>>, ghost acts: seq<Action<V>>)
      requires Valid() && ValidProgram(p) && ClusterOk(p, c) && c.workers[id] == View([])
      requires k in rows
      requires Arriving(c.net, at, arrived, id)
      modifies this
      ensures Valid()
      ensures acts != [] && acts[0] == Process(id, k) && Processes(acts) == 1 && Feasible(p, c, acts)
      ensures Run(p, c, acts) == After(c, id, View([]), Taken(c.net, at), puts)
    {
      var output;
      ghost var first;
      output, first := ProcessDelta(k, c);
      ghost var w1 := View(output);
      ghost var delivered := HandlePutRequests(arrived, at, Run(p, c, first), output);
      ghost var w2 := View(output);
      ComposeFront(p, c, first, delivered, id, w1, w2, Taken(c.net, at));
      ghost var emitted;
      puts, emitted := EmitOutputs(output, Run(p, c, first + delivered));
      Compose(p, c, first + delivered, emitted, id, w2, Taken(c.net, at), [], View([]), puts);
      acts := first + delivered + emitted;
      assert [] + puts == puts;
      ProcessesConcat(first, delivered);
      ProcessesConcat(first + delivered, emitted);
    }
  }
}
