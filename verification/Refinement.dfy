/** The distributed machine refines a machine with a single table: per key, everything that
    is pending anywhere combines into one residual, and only `Process` changes it. */
module Refinement {
  import opened Collections
  import opened DeltaMonoid
  import opened Protocol

  // ---------------------------------------------------------------- the residual

  function RowDelta<V>(m: Monoid<V>, w: Worker<V>, k: Key): V {
    if k in w.rows then w.rows[k].delta else m.zero
  }

  function Buffered<V>(p: Program<V>, w: Worker<V>, k: Key): V
    requires p.n > 0 && |w.buffers| == p.n
  {
    Lookup(p.m, w.buffers[Owner(p, k)], k)
  }

  /** Deltas for `k` waiting to leave worker `w`: its output vector and its buffer. */
  function Leaving<V>(p: Program<V>, w: Worker<V>, k: Key): V
    requires p.n > 0 && |w.buffers| == p.n
  {
    p.m.acc(At(p.m, w.output, k), Buffered(p, w, k))
  }

  /** Everything worker `w` holds for `k`: field F1, output vector, combining buffer. */
  function Held<V>(p: Program<V>, w: Worker<V>, k: Key): V
    requires p.n > 0 && |w.buffers| == p.n
  {
    p.m.acc(RowDelta(p.m, w, k), Leaving(p, w, k))
  }

  predicate Shaped<V>(p: Program<V>, ws: seq<Worker<V>>) {
    forall i :: 0 <= i < |ws| ==> |ws[i].buffers| == p.n
  }

  function HeldAll<V>(p: Program<V>, ws: seq<Worker<V>>, k: Key): V
    requires p.n > 0 && Shaped(p, ws)
  {
    if ws == [] then p.m.zero
    else
      assert ws[0] in ws;
      p.m.acc(Held(p, ws[0], k), HeldAll(p, ws[1..], k))
  }

  function InFlight<V>(p: Program<V>, net: seq<Put<V>>, k: Key): V {
    if net == [] then p.m.zero else p.m.acc(At(p.m, net[0].kv, k), InFlight(p, net[1..], k))
  }

  /** The combination, at `k`, of every F1, output vector, DeltaTable and in-flight PUT. */
  function Residual<V>(p: Program<V>, c: Cluster<V>, k: Key): V
    requires p.n > 0 && Shaped(p, c.workers)
  {
    p.m.acc(HeldAll(p, c.workers, k), InFlight(p, c.net, k))
  }

  lemma {:induction false} HeldSplit<V(!new)>(p: Program<V>, ws: seq<Worker<V>>, i: nat, k: Key)
    requires p.n > 0 && Lawful(p.m) && Shaped(p, ws) && i < |ws|
    ensures HeldAll(p, ws, k) == p.m.acc(Held(p, ws[i], k), HeldAll(p, Without(ws, i), k))
    decreases |ws|
  {
    if i == 0 {
      assert Without(ws, 0) == ws[1..];
    } else {
      var rest := Without(ws[1..], i - 1);
      assert Without(ws, i) == [ws[0]] + rest && Without(ws, i)[1..] == rest;
      HeldSplit(p, ws[1..], i - 1, k);
      var a, b, c := Held(p, ws[0], k), Held(p, ws[i], k), HeldAll(p, rest, k);
      Assoc(p.m, a, b, c);
      Comm(p.m, a, b);
      Assoc(p.m, b, a, c);
    }
  }

  lemma {:induction false} InFlightSplit<V(!new)>(p: Program<V>, net: seq<Put<V>>, i: nat, k: Key)
    requires Lawful(p.m) && i < |net|
    ensures InFlight(p, net, k) == p.m.acc(At(p.m, net[i].kv, k), InFlight(p, Without(net, i), k))
    decreases |net|
  {
    if i == 0 {
      assert Without(net, 0) == net[1..];
    } else {
      var rest := Without(net[1..], i - 1);
      assert Without(net, i) == [net[0]] + rest && Without(net, i)[1..] == rest;
      InFlightSplit(p, net[1..], i - 1, k);
      var a, b, c := At(p.m, net[0].kv, k), At(p.m, net[i].kv, k), InFlight(p, rest, k);
      Assoc(p.m, a, b, c);
      Comm(p.m, a, b);
      Assoc(p.m, b, a, c);
    }
  }

  /** What is pending for `k` outside worker `i`. */
  function Elsewhere<V>(p: Program<V>, c: Cluster<V>, i: nat, k: Key): V
    requires p.n > 0 && Shaped(p, c.workers) && i < |c.workers|
  {
    p.m.acc(HeldAll(p, Without(c.workers, i), k), InFlight(p, c.net, k))
  }

  lemma ResidualAround<V(!new)>(p: Program<V>, c: Cluster<V>, i: nat, k: Key)
    requires p.n > 0 && Lawful(p.m) && Shaped(p, c.workers) && i < |c.workers|
    ensures Residual(p, c, k) == p.m.acc(Held(p, c.workers[i], k), Elsewhere(p, c, i, k))
  {
    HeldSplit(p, c.workers, i, k);
    Assoc(p.m, Held(p, c.workers[i], k), HeldAll(p, Without(c.workers, i), k), InFlight(p, c.net, k));
  }

  /** Replacing worker `i` by one that holds `x` more adds `x` to the residual. */
  lemma ResidualGrows<V(!new)>(p: Program<V>, c: Cluster<V>, i: nat, w: Worker<V>, k: Key, x: V)
    requires p.n > 0 && Lawful(p.m) && Shaped(p, c.workers) && i < |c.workers| && |w.buffers| == p.n
    requires Held(p, w, k) == p.m.acc(Held(p, c.workers[i], k), x)
    ensures Shaped(p, c.workers[i := w])
    ensures Residual(p, c.(workers := c.workers[i := w]), k) == p.m.acc(Residual(p, c, k), x)
  {
    var c' := c.(workers := c.workers[i := w]);
    assert Without(c'.workers, i) == Without(c.workers, i);
    ResidualAround(p, c, i, k);
    ResidualAround(p, c', i, k);
    Swap(p.m, Held(p, c.workers[i], k), Elsewhere(p, c, i, k), x);
  }

  // ---------------------------------------------------------------- one accumulation

  lemma AccumulateHeld<V(!new)>(p: Program<V>, i: nat, w: Worker<V>, t: Key, x: V, k: Key)
    requires p.n > 0 && Lawful(p.m) && WorkerOk(p, i, w) && i < p.n && t in p.keys
    ensures |AccumulateF1(p, i, w, t, x).buffers| == p.n
    ensures Held(p, AccumulateF1(p, i, w, t, x), k) == p.m.acc(Held(p, w, k), One(p.m, t, x, k))
  {
    var m, w' := p.m, AccumulateF1(p, i, w, t, x);
    var a, o, b := RowDelta(m, w, k), At(m, w.output, k), Buffered(p, w, k);
    Unit(m, Held(p, w, k));
    if t == k {
      if Owner(p, t) == i {
        Swap(m, a, Leaving(p, w, k), x);
      } else {
        assert Buffered(p, w', k) == m.acc(b, x) by { Unit(m, x); }
        Assoc(m, o, b, x);
        Assoc(m, a, m.acc(o, b), x);
      }
    }
  }

  lemma {:induction false} ApplyAllHeld<V(!new)>(p: Program<V>, i: nat, w: Worker<V>, kv: seq<(Key, V)>, k: Key)
    requires p.n > 0 && Lawful(p.m) && WorkerOk(p, i, w) && i < p.n && PutOk(p, Put(i, kv))
    ensures forall j :: 0 <= j < |kv| ==> kv[j].0 in w.rows && Owner(p, kv[j].0) == i
    ensures |ApplyAll(p, i, w, kv).buffers| == p.n
    ensures Held(p, ApplyAll(p, i, w, kv), k) == p.m.acc(Held(p, w, k), At(p.m, kv, k))
    decreases |kv|
  {
    ApplyAllOk(p, i, w, kv);
    if kv == [] {
      Unit(p.m, Held(p, w, k));
    } else {
      assert kv[0].0 == Put(i, kv).kv[0].0;
      var w1 := AccumulateF1(p, i, w, kv[0].0, kv[0].1);
      AccumulateOk(p, i, w, kv[0].0, kv[0].1);
      AccumulateHeld(p, i, w, kv[0].0, kv[0].1, k);
      assert PutOk(p, Put(i, kv[1..]));
      ApplyAllHeld(p, i, w1, kv[1..], k);
      Assoc(p.m, Held(p, w, k), One(p.m, kv[0].0, kv[0].1, k), At(p.m, kv[1..], k));
    }
  }

  // ---------------------------------------------------------------- each action, per key

  lemma EmitKeeps<V(!new)>(p: Program<V>, c: Cluster<V>, i: nat, k: Key)
    requires ValidProgram(p) && ClusterOk(p, c) && Enabled(p, c, Emit(i))
    ensures Shaped(p, Step(p, c, Emit(i)).workers)
    ensures Residual(p, Step(p, c, Emit(i)), k) == Residual(p, c, k)
  {
    var w, m := c.workers[i], p.m;
    var t, x, w1 := w.output[0].0, w.output[0].1, w.(output := w.output[1..]);
    assert t in p.keys;
    AccumulateHeld(p, i, w1, t, x, k);
    // Held(w) == Held(w1) with the head of the output vector
    var a, h, o, b := RowDelta(m, w, k), One(m, t, x, k), At(m, w1.output, k), Buffered(p, w, k);
    Assoc(m, h, o, b);
    Comm(m, h, m.acc(o, b));
    Assoc(m, a, m.acc(o, b), h);
    assert Held(p, w, k) == Held(p, AccumulateF1(p, i, w1, t, x), k);
    Unit(m, Held(p, w, k));
    Unit(m, Residual(p, c, k));
    ResidualGrows(p, c, i, AccumulateF1(p, i, w1, t, x), k, m.zero);
  }

  lemma SendKeeps<V(!new)>(p: Program<V>, c: Cluster<V>, i: nat, s: nat, kv: seq<(Key, V)>, k: Key)
    requires ValidProgram(p) && ClusterOk(p, c) && Enabled(p, c, Send(i, s, kv))
    ensures Shaped(p, Step(p, c, Send(i, s, kv)).workers)
    ensures Residual(p, Step(p, c, Send(i, s, kv)), k) == Residual(p, c, k)
  {
    var w, m := c.workers[i], p.m;
    var w' := w.(buffers := w.buffers[s := map[]]);
    var x := At(m, kv, k);
    ListsAt(m, kv, w.buffers[s], k);
    assert InShard(p, s, w.buffers[s]);
    var a, o, b, b' := RowDelta(m, w, k), At(m, w.output, k), Buffered(p, w, k), Buffered(p, w', k);
    assert b == m.acc(b', x) by { Unit(m, b); }
    Assoc(m, o, b', x);
    Assoc(m, a, m.acc(o, b'), x);
    var c0 := c.(workers := c.workers[i := w']);
    assert c.workers == c0.workers[i := w];
    ResidualGrows(p, c0, i, w, k, x);
    var c' := Step(p, c, Send(i, s, kv));
    InFlightSplit(p, c'.net, |c.net|, k);
    assert Without(c'.net, |c.net|) == c.net;
    Comm(m, x, InFlight(p, c.net, k));
    Assoc(m, HeldAll(p, c'.workers, k), InFlight(p, c.net, k), x);
  }

  lemma DeliverKeeps<V(!new)>(p: Program<V>, c: Cluster<V>, j: nat, k: Key)
    requires ValidProgram(p) && ClusterOk(p, c) && Enabled(p, c, Deliver(j))
    ensures Shaped(p, Step(p, c, Deliver(j)).workers)
    ensures Residual(p, Step(p, c, Deliver(j)), k) == Residual(p, c, k)
  {
    var put, m := c.net[j], p.m;
    assert PutOk(p, put) && put == Put(put.shard, put.kv);
    var i := put.shard;
    ApplyAllHeld(p, i, c.workers[i], put.kv, k);
    var x, rest := At(m, put.kv, k), Without(c.net, j);
    InFlightSplit(p, c.net, j, k);
    var c0 := c.(net := rest);
    ResidualGrows(p, c0, i, ApplyAll(p, i, c.workers[i], put.kv), k, x);
    Comm(m, x, InFlight(p, rest, k));
    Assoc(m, HeldAll(p, c.workers, k), InFlight(p, rest, k), x);
  }

  // ---------------------------------------------------------------- the one-table machine

  type Table<V> = map<Key, Row<V>>

  /** The single table a cluster stands for: residual and value of every key. */
  ghost function Abs<V>(p: Program<V>, c: Cluster<V>): Table<V>
    requires p.n > 0 && ClusterOk(p, c)
  {
    map k | k in p.keys :: Row(Residual(p, c, k), ValueOf(p, c, k))
  }

  function ValueOf<V>(p: Program<V>, c: Cluster<V>, k: Key): V
    requires p.n > 0 && ClusterOk(p, c) && k in p.keys
  {
    assert WorkerOk(p, Owner(p, k), c.workers[Owner(p, k)]);
    c.workers[Owner(p, k)].rows[k].value
  }

  /** One step of the one-table machine: a part `d` of the residual of `k` is folded into
      its value, and the outputs computed from it join the residuals; `rest` stays. */
  ghost predicate TableStep<V>(p: Program<V>, t: Table<V>, t': Table<V>, k: Key, d: V, rest: V) {
    && k in t
    && t[k].delta == p.m.acc(d, rest)
    && t' == TableAfter(p, t, k, d, rest)
  }

  function TableAfter<V>(p: Program<V>, t: Table<V>, k: Key, d: V, rest: V): Table<V>
    requires k in t
  {
    var v := p.m.acc(t[k].value, d);
    map j | j in t :: Row(
      p.m.acc(if j == k then rest else t[j].delta, At(p.m, p.g(k, d, v), j)),
      if j == k then v else t[j].value)
  }

  /** The part of `k`'s residual that is not in the owner's F1. */
  function Rest<V>(p: Program<V>, c: Cluster<V>, i: nat, k: Key): V
    requires p.n > 0 && Shaped(p, c.workers) && i < |c.workers|
  {
    p.m.acc(Leaving(p, c.workers[i], k), Elsewhere(p, c, i, k))
  }

  lemma ProcessChanges<V(!new)>(p: Program<V>, c: Cluster<V>, i: nat, k: Key, j: Key)
    requires ValidProgram(p) && ClusterOk(p, c) && Enabled(p, c, Process(i, k))
    ensures Shaped(p, Step(p, c, Process(i, k)).workers)
    ensures Residual(p, c, k) == p.m.acc(c.workers[i].rows[k].delta, Rest(p, c, i, k))
    ensures Residual(p, Step(p, c, Process(i, k)), j)
         == p.m.acc(if j == k then Rest(p, c, i, k) else Residual(p, c, j),
                    At(p.m, Step(p, c, Process(i, k)).workers[i].output, j))
  {
    var w, m := c.workers[i], p.m;
    var w', d := ProcessKey(p, w, k), w.rows[k].delta;
    var c', outs := Step(p, c, Process(i, k)), w'.output;
    assert Without(c'.workers, i) == Without(c.workers, i);
    ResidualAround(p, c, i, k);
    Assoc(m, d, Leaving(p, w, k), Elsewhere(p, c, i, k));
    ResidualAround(p, c, i, j);
    ResidualAround(p, c', i, j);
    var a', b, e, o := RowDelta(m, w', j), Buffered(p, w, j), Elsewhere(p, c, i, j), At(m, outs, j);
    Unit(m, b);
    // Held(w') == (a' b) o, whatever F1 held before
    Comm(m, o, b);
    Assoc(m, a', b, o);
    Swap(m, m.acc(a', b), o, e);
    Unit(m, b);
  }

  lemma QuietRow<V(!new)>(p: Program<V>, c: Cluster<V>, a: Action<V>, k: Key)
    requires ValidProgram(p) && ClusterOk(p, c) && Enabled(p, c, a) && !a.Process? && k in p.keys
    ensures ClusterOk(p, Step(p, c, a))
    ensures Residual(p, Step(p, c, a), k) == Residual(p, c, k)
    ensures ValueOf(p, Step(p, c, a), k) == ValueOf(p, c, k)
  {
    StepOk(p, c, a);
    match a
    case Emit(i) => EmitKeeps(p, c, i, k);
    case Send(i, s, kv) => SendKeeps(p, c, i, s, kv, k);
    case Deliver(j) =>
      DeliverKeeps(p, c, j, k);
      assert PutOk(p, c.net[j]);
      ApplyAllValues(p, c.net[j].shard, c.workers[c.net[j].shard], c.net[j].kv);
  }

  /** The refinement: emitting, sending and delivering are invisible in the one-table view
      of every cluster, whatever the interleaving and delivery order ... */
  lemma QuietStep<V(!new)>(p: Program<V>, c: Cluster<V>, a: Action<V>)
    requires ValidProgram(p) && ClusterOk(p, c) && Enabled(p, c, a) && !a.Process?
    ensures ClusterOk(p, Step(p, c, a))
    ensures Abs(p, Step(p, c, a)) == Abs(p, c)
  {
    StepOk(p, c, a);
    forall k | k in p.keys
      ensures Abs(p, Step(p, c, a))[k] == Abs(p, c)[k]
    {
      QuietRow(p, c, a, k);
    }
  }

  lemma {:induction false} ApplyAllValues<V(!new)>(p: Program<V>, i: nat, w: Worker<V>, kv: seq<(Key, V)>)
    requires p.n > 0 && WorkerOk(p, i, w) && i < p.n && PutOk(p, Put(i, kv))
    ensures forall j :: 0 <= j < |kv| ==> kv[j].0 in w.rows && Owner(p, kv[j].0) == i
    ensures ApplyAll(p, i, w, kv).rows.Keys == w.rows.Keys
    ensures forall k :: k in w.rows ==> ApplyAll(p, i, w, kv).rows[k].value == w.rows[k].value
    decreases |kv|
  {
    ApplyAllOk(p, i, w, kv);
    if kv != [] {
      assert kv[0].0 == Put(i, kv).kv[0].0;
      AccumulateOk(p, i, w, kv[0].0, kv[0].1);
      assert PutOk(p, Put(i, kv[1..]));
      ApplyAllValues(p, i, AccumulateF1(p, i, w, kv[0].0, kv[0].1), kv[1..]);
    }
  }

  lemma ProcessRow<V(!new)>(p: Program<V>, c: Cluster<V>, i: nat, k: Key, j: Key)
    requires ValidProgram(p) && ClusterOk(p, c) && Enabled(p, c, Process(i, k)) && j in p.keys
    ensures ClusterOk(p, Step(p, c, Process(i, k))) && k in Abs(p, c)
    ensures Abs(p, c)[k].delta == p.m.acc(c.workers[i].rows[k].delta, Rest(p, c, i, k))
    ensures Abs(p, Step(p, c, Process(i, k)))[j]
         == TableAfter(p, Abs(p, c), k, c.workers[i].rows[k].delta, Rest(p, c, i, k))[j]
  {
    var c' := Step(p, c, Process(i, k));
    StepOk(p, c, Process(i, k));
    assert WorkerOk(p, i, c.workers[i]);
    assert c'.workers[i] == ProcessKey(p, c.workers[i], k);
    assert ValueOf(p, c', j) == if j == k then c'.workers[i].rows[k].value else ValueOf(p, c, j);
    ProcessChanges(p, c, i, k, j);
  }

  lemma TableStepByRows<V>(p: Program<V>, t: Table<V>, t': Table<V>, k: Key, d: V, rest: V)
    requires k in t && t[k].delta == p.m.acc(d, rest) && t'.Keys == t.Keys
    requires forall j :: j in t ==> t'[j] == TableAfter(p, t, k, d, rest)[j]
    ensures TableStep(p, t, t', k, d, rest)
  {
    assert t' == TableAfter(p, t, k, d, rest);
  }

  /** ... and a process step is one step of the one-table machine that consumes F1. */
  lemma ProcessStep<V(!new)>(p: Program<V>, c: Cluster<V>, i: nat, k: Key)
    requires ValidProgram(p) && ClusterOk(p, c) && Enabled(p, c, Process(i, k))
    ensures ClusterOk(p, Step(p, c, Process(i, k)))
    ensures TableStep(p, Abs(p, c), Abs(p, Step(p, c, Process(i, k))), k, c.workers[i].rows[k].delta, Rest(p, c, i, k))
  {
    StepOk(p, c, Process(i, k));
    var t, t' := Abs(p, c), Abs(p, Step(p, c, Process(i, k)));
    var d, rest := c.workers[i].rows[k].delta, Rest(p, c, i, k);
    assert k in p.keys by { assert WorkerOk(p, i, c.workers[i]); }
    ProcessRow(p, c, i, k, k);
    forall j | j in t
      ensures t'[j] == TableAfter(p, t, k, d, rest)[j]
    {
      ProcessRow(p, c, i, k, j);
    }
    assert t'.Keys == t.Keys;
    TableStepByRows(p, t, t', k, d, rest);
  }

  lemma ProcessValues<V(!new)>(p: Program<V>, c: Cluster<V>, i: nat, k: Key)
    requires ValidProgram(p) && ClusterOk(p, c) && Enabled(p, c, Process(i, k))
    ensures ClusterOk(p, Step(p, c, Process(i, k))) && k in Abs(p, c)
    ensures Abs(p, Step(p, c, Process(i, k))).Keys == Abs(p, c).Keys
    ensures forall j :: j in Abs(p, c) ==>
              Abs(p, Step(p, c, Process(i, k)))[j].value
              == if j == k then p.m.acc(Abs(p, c)[k].value, c.workers[i].rows[k].delta) else Abs(p, c)[j].value
  {
    ProcessStep(p, c, i, k);
  }
}
