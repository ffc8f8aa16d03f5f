/** Rounds: schedules between two drained states that process every key at least once, in any
    order and any number of times. What such a schedule achieves at each key, and that there
    always is one. */
module Rounds {
  import opened Collections
  import opened DeltaMonoid
  import opened Protocol
  import opened Refinement
  import opened Runs
  import opened Barrier

  /** Nothing is pending outside the F1 fields. */
  ghost predicate AtRest<V>(c: Cluster<V>) { KernelsIdle(c) && Drained(c) }

  ghost predicate ProcessesKey<V>(acts: seq<Action<V>>, k: Key) {
    exists j :: 0 <= j < |acts| && acts[j].Process? && acts[j].key == k
  }

  ghost predicate Round<V(!new)>(p: Program<V>, c: Cluster<V>, acts: seq<Action<V>>)
    requires ValidProgram(p) && ClusterOk(p, c)
    ensures Round(p, c, acts) ==> Feasible(p, c, acts)
  {
    && AtRest(c) && Feasible(p, c, acts) && AtRest(Run(p, c, acts))
    && forall k :: k in p.keys ==> ProcessesKey(acts, k)
  }

  // ---------------------------------------------------------------- what a round folds

  function RowOf<V>(p: Program<V>, c: Cluster<V>, k: Key): Row<V>
    requires p.n > 0 && ClusterOk(p, c) && k in p.keys
  {
    assert WorkerOk(p, Owner(p, k), c.workers[Owner(p, k)]);
    c.workers[Owner(p, k)].rows[k]
  }

  /** The value once F1 is folded in. */
  function Sum<V>(m: Monoid<V>, r: Row<V>): V { m.acc(r.value, r.delta) }

  /** `le` orders the values so that accumulating what satisfies `P` only goes up. */
  ghost predicate GoesUp<V(!new)>(m: Monoid<V>, P: (Key, V) -> bool, le: (V, V) -> bool) {
    && (forall a :: le(a, a))
    && (forall a, b, c :: le(a, b) && le(b, c) ==> le(a, c))
    && (forall k, a, x :: P(k, x) ==> le(a, m.acc(a, x)))
  }

  /** The row got at least as far, and its value did. */
  ghost predicate Further<V>(m: Monoid<V>, le: (V, V) -> bool, r: Row<V>, r': Row<V>) {
    le(r.value, r'.value) && le(Sum(m, r), Sum(m, r'))
  }

  lemma AccumulateFurther<V(!new)>(
    p: Program<V>, i: nat, w: Worker<V>, t: Key, x: V, k: Key, P: (Key, V) -> bool, le: (V, V) -> bool)
    requires p.n > 0 && Lawful(p.m) && WorkerOk(p, i, w) && i < p.n && t in p.keys && k in w.rows
    requires GoesUp(p.m, P, le) && P(t, x)
    ensures k in AccumulateF1(p, i, w, t, x).rows
    ensures Further(p.m, le, w.rows[k], AccumulateF1(p, i, w, t, x).rows[k])
  {
    if t == k {
      Assoc(p.m, w.rows[k].value, w.rows[k].delta, x);
    }
  }

  lemma {:induction false} ApplyAllFurther<V(!new)>(
    p: Program<V>, i: nat, w: Worker<V>, kv: seq<(Key, V)>, k: Key, P: (Key, V) -> bool, le: (V, V) -> bool)
    requires p.n > 0 && Lawful(p.m) && WorkerOk(p, i, w) && i < p.n && PutOk(p, Put(i, kv)) && k in w.rows
    requires GoesUp(p.m, P, le) && PairsHold(kv, P)
    ensures forall j :: 0 <= j < |kv| ==> kv[j].0 in w.rows && Owner(p, kv[j].0) == i
    ensures k in ApplyAll(p, i, w, kv).rows
    ensures Further(p.m, le, w.rows[k], ApplyAll(p, i, w, kv).rows[k])
    decreases |kv|
  {
    ApplyAllOk(p, i, w, kv);
    if kv != [] {
      var x := Put(i, kv).kv[0];
      var w1 := AccumulateF1(p, i, w, x.0, x.1);
      AccumulateOk(p, i, w, x.0, x.1);
      AccumulateFurther(p, i, w, x.0, x.1, k, P, le);
      assert PutOk(p, Put(i, kv[1..])) && PairsHold(kv[1..], P);
      ApplyAllFurther(p, i, w1, kv[1..], k, P, le);
    }
  }

  /** No step takes a row back, and processing a key brings its value up to its sum. */
  lemma StepFurther<V(!new)>(
    p: Program<V>, c: Cluster<V>, a: Action<V>, k: Key, P: (Key, V) -> bool, le: (V, V) -> bool)
    requires ValidProgram(p) && ClusterOk(p, c) && Enabled(p, c, a) && k in p.keys
    requires Everywhere(c, P) && GoesUp(p.m, P, le)
    ensures ClusterOk(p, Step(p, c, a))
    ensures Further(p.m, le, RowOf(p, c, k), RowOf(p, Step(p, c, a), k))
    ensures a.Process? && a.key == k ==> RowOf(p, Step(p, c, a), k).value == Sum(p.m, RowOf(p, c, k))
  {
    StepOk(p, c, a);
    var o := Owner(p, k);
    assert WorkerOk(p, o, c.workers[o]);
    match a
    case Process(i, j) =>
      assert WorkerOk(p, i, c.workers[i]) && WorkerHolds(c.workers[i], P);
      Unit(p.m, Sum(p.m, RowOf(p, c, k)));
    case Emit(i) =>
      var w := c.workers[i];
      assert WorkerOk(p, i, w) && WorkerHolds(w, P) && w.output[0].0 in p.keys;
      if i == o {
        AccumulateFurther(p, i, w.(output := w.output[1..]), w.output[0].0, w.output[0].1, k, P, le);
      }
    case Send(i, s, kv) =>
    case Deliver(j) =>
      var put := c.net[j];
      assert PutOk(p, put) && put == Put(put.shard, put.kv) && PairsHold(put.kv, P);
      if put.shard == o {
        ApplyAllFurther(p, o, c.workers[o], put.kv, k, P, le);
      }
  }

  /** After any schedule a row is further, and the value of a processed key has reached the sum
      the row had at the start. */
  lemma {:induction false} RunFurther<V(!new)>(
    p: Program<V>, c: Cluster<V>, acts: seq<Action<V>>, k: Key, P: (Key, V) -> bool, le: (V, V) -> bool)
    requires ValidProgram(p) && ClusterOk(p, c) && Feasible(p, c, acts) && k in p.keys
    requires Closed(p, P) && Everywhere(c, P) && GoesUp(p.m, P, le)
    ensures Further(p.m, le, RowOf(p, c, k), RowOf(p, Run(p, c, acts), k))
    ensures ProcessesKey(acts, k) ==> le(Sum(p.m, RowOf(p, c, k)), RowOf(p, Run(p, c, acts), k).value)
    decreases |acts|
  {
    if acts != [] {
      var a, c' := acts[0], Step(p, c, acts[0]);
      StepFurther(p, c, a, k, P, le);
      StepHolds(p, c, a, P);
      RunFurther(p, c', acts[1..], k, P, le);
      if ProcessesKey(acts, k) && !(a.Process? && a.key == k) {
        var j :| 0 <= j < |acts| && acts[j].Process? && acts[j].key == k;
        assert acts[1..][j - 1] == acts[j];
        assert ProcessesKey(acts[1..], k);
      }
    }
  }

  /** From a state at rest, processing every key brings each value up to what value and residual
      were together. */
  lemma RoundFolds<V(!new)>(p: Program<V>, c: Cluster<V>, acts: seq<Action<V>>, P: (Key, V) -> bool, le: (V, V) -> bool)
    requires ValidProgram(p) && ClusterOk(p, c) && Round(p, c, acts)
    requires Closed(p, P) && Everywhere(c, P) && GoesUp(p.m, P, le)
    ensures forall k :: k in p.keys ==> le(Sum(p.m, Abs(p, c)[k]), Abs(p, Run(p, c, acts))[k].value)
  {
    forall k | k in p.keys
      ensures le(Sum(p.m, Abs(p, c)[k]), Abs(p, Run(p, c, acts))[k].value)
    {
      RunFurther(p, c, acts, k, P, le);
      DrainedResidual(p, c, k);
    }
  }

  // ---------------------------------------------------------------- there always is one

  /** Some order for the entries of a buffer. */
  lemma {:induction false} SomeListing<V(!new)>(b: map<Key, V>) returns (kv: seq<(Key, V)>)
    ensures Lists(kv, b)
    decreases |b|
  {
    if b == map[] {
      kv := [];
    } else {
      var k :| k in b;
      var more := SomeListing(b - {k});
      kv := more + [(k, b[k])];
      ListsOneMore(more, b - {k}, k, b[k]);
      assert (b - {k})[k := b[k]] == b;
    }
  }

  /** `acts` lead from `c` to `c'` without processing anything. */
  ghost predicate Leads<V(!new)>(p: Program<V>, c: Cluster<V>, acts: seq<Action<V>>, c': Cluster<V>)
    requires ValidProgram(p) && ClusterOk(p, c)
  {
    Feasible(p, c, acts) && Run(p, c, acts) == c' && Processes(acts) == 0
  }

  lemma LeadsOn<V(!new)>(p: Program<V>, c: Cluster<V>, a: Action<V>, acts: seq<Action<V>>, c': Cluster<V>)
    requires ValidProgram(p) && ClusterOk(p, c) && Enabled(p, c, a) && !a.Process?
    requires ClusterOk(p, Step(p, c, a)) && Leads(p, Step(p, c, a), acts, c')
    ensures Leads(p, c, [a] + acts, c')
  {
    assert ([a] + acts)[1..] == acts;
  }

  /** All buffers before shard `s` of worker `i` are empty. */
  ghost predicate FlushedTo<V>(c: Cluster<V>, i: nat, s: nat) {
    && (forall j :: 0 <= j < i && j < |c.workers| ==> BuffersEmpty(c.workers[j]))
    && (i < |c.workers| ==> forall t :: 0 <= t < s && t < |c.workers[i].buffers| ==> c.workers[i].buffers[t] == map[])
  }

  lemma LeadsNowhere<V(!new)>(p: Program<V>, c: Cluster<V>)
    requires ValidProgram(p) && ClusterOk(p, c)
    ensures Leads(p, c, [], c)
  {
  }

  lemma SendFlushes<V(!new)>(p: Program<V>, c: Cluster<V>, i: nat, s: nat, kv: seq<(Key, V)>)
    requires ValidProgram(p) && ClusterOk(p, c) && KernelsIdle(c) && i < p.n && s < p.n && FlushedTo(c, i, s)
    requires s < |c.workers[i].buffers| && c.workers[i].buffers[s] != map[] && Lists(kv, c.workers[i].buffers[s])
    ensures Enabled(p, c, Send(i, s, kv)) && ClusterOk(p, Step(p, c, Send(i, s, kv)))
    ensures KernelsIdle(Step(p, c, Send(i, s, kv))) && FlushedTo(Step(p, c, Send(i, s, kv)), i, s + 1)
  {
    assert WorkerOk(p, i, c.workers[i]);
    StepOk(p, c, Send(i, s, kv));
  }

  lemma {:induction false} FlushFrom<V(!new)>(p: Program<V>, c: Cluster<V>, i: nat, s: nat)
    returns (acts: seq<Action<V>>, c': Cluster<V>)
    requires ValidProgram(p) && ClusterOk(p, c) && KernelsIdle(c) && i <= p.n && s <= p.n && FlushedTo(c, i, s)
    ensures Leads(p, c, acts, c') && ClusterOk(p, c') && KernelsIdle(c') && Flushed(c')
    decreases p.n - i, p.n - s
  {
    hide Step, Enabled, Leads, Lists, FlushedTo, ClusterOk, KernelsIdle, Flushed;
    FlushedFurther(p, c, i, s);
    if i == p.n {
      acts, c' := [], c;
      LeadsNowhere(p, c);
    } else if s == p.n {
      acts, c' := FlushFrom(p, c, i + 1, 0);
    } else if c.workers[i].buffers[s] == map[] {
      acts, c' := FlushFrom(p, c, i, s + 1);
    } else {
      var kv := SomeListing(c.workers[i].buffers[s]);
      var a := Send(i, s, kv);
      SendFlushes(p, c, i, s, kv);
      acts, c' := FlushFrom(p, Step(p, c, a), i, s + 1);
      LeadsOn(p, c, a, acts, c');
      acts := [a] + acts;
    }
  }

  lemma FlushedFurther<V(!new)>(p: Program<V>, c: Cluster<V>, i: nat, s: nat)
    requires p.n > 0 && ClusterOk(p, c) && i <= p.n && s <= p.n && FlushedTo(c, i, s)
    ensures |c.workers| == p.n && (i < p.n ==> |c.workers[i].buffers| == p.n)
    ensures i == p.n ==> Flushed(c)
    ensures i < p.n && s == p.n ==> FlushedTo(c, i + 1, 0)
    ensures i < p.n && s < p.n && c.workers[i].buffers[s] == map[] ==> FlushedTo(c, i, s + 1)
  {
    if i < p.n {
      assert WorkerOk(p, i, c.workers[i]);
      assert s == p.n ==> BuffersEmpty(c.workers[i]);
    }
  }

  lemma {:induction false} ApplyRest<V(!new)>(p: Program<V>, c: Cluster<V>)
    returns (acts: seq<Action<V>>, c': Cluster<V>)
    requires ValidProgram(p) && ClusterOk(p, c) && KernelsIdle(c) && Flushed(c)
    ensures Leads(p, c, acts, c') && ClusterOk(p, c') && AtRest(c')
    decreases |c.net|
  {
    if c.net == [] {
      acts, c' := [], c;
    } else {
      var a := Deliver(0);
      DeliverOnlyApplies(p, c, 0);
      StepOk(p, c, a);
      var c1 := Step(p, c, a);
      assert forall i :: 0 <= i < p.n ==> BuffersEmpty(c.workers[i]) && BuffersEmpty(c1.workers[i]);
      acts, c' := ApplyRest(p, c1);
      LeadsOn(p, c, a, acts, c');
      acts := [a] + acts;
    }
  }

  lemma {:induction false} EmitRest<V(!new)>(p: Program<V>, c: Cluster<V>, i: nat)
    returns (acts: seq<Action<V>>, c': Cluster<V>)
    requires ValidProgram(p) && ClusterOk(p, c) && i < p.n
    requires forall j :: 0 <= j < p.n && j != i ==> c.workers[j].output == []
    ensures Leads(p, c, acts, c') && ClusterOk(p, c') && KernelsIdle(c')
    decreases |c.workers[i].output|
  {
    if c.workers[i].output == [] {
      acts, c' := [], c;
    } else {
      var a := Emit(i);
      StepOk(p, c, a);
      acts, c' := EmitRest(p, Step(p, c, a), i);
      LeadsOn(p, c, a, acts, c');
      acts := [a] + acts;
    }
  }

  /** With kernels idle, flushing and applying lead to rest. */
  lemma Settle<V(!new)>(p: Program<V>, c: Cluster<V>) returns (acts: seq<Action<V>>, c': Cluster<V>)
    requires ValidProgram(p) && ClusterOk(p, c) && KernelsIdle(c)
    ensures Leads(p, c, acts, c') && ClusterOk(p, c') && AtRest(c')
  {
    var flush, c1 := FlushFrom(p, c, 0, 0);
    var apply;
    apply, c' := ApplyRest(p, c1);
    RunConcat(p, c, flush, apply);
    ProcessesConcat(flush, apply);
    acts := flush + apply;
  }

  /** A state at rest, a key processed, and rest again: one step of the one-table machine that
      consumes the whole residual of the key. */
  lemma ProcessAndSettle<V(!new)>(p: Program<V>, c: Cluster<V>, k: Key)
    returns (acts: seq<Action<V>>, c': Cluster<V>)
    requires ValidProgram(p) && ClusterOk(p, c) && AtRest(c) && k in p.keys
    ensures Feasible(p, c, acts) && Run(p, c, acts) == c' && ClusterOk(p, c') && AtRest(c')
    ensures acts != [] && acts[0].Process? && acts[0].key == k
    ensures TableStep(p, Abs(p, c), Abs(p, c'), k, Abs(p, c)[k].delta, p.m.zero)
  {
    hide TableStep, Residual, Rest, ValueOf, Enabled, Step, Leads, AtRest;
    var i := Owner(p, k);
    CanProcess(p, c, k);
    var a := Process(i, k);
    ProcessStep(p, c, i, k);
    var c1 := Step(p, c, a);
    var emits, c2 := EmitRest(p, c1, i);
    var settle;
    settle, c' := Settle(p, c2);
    LeadsTwice(p, c1, emits, c2, settle, c');
    acts := [a] + (emits + settle);
    assert acts[1..] == emits + settle;
  }

  lemma LeadsTwice<V(!new)>(
    p: Program<V>, c: Cluster<V>, a: seq<Action<V>>, c1: Cluster<V>, b: seq<Action<V>>, c2: Cluster<V>)
    requires ValidProgram(p) && ClusterOk(p, c) && ClusterOk(p, c1) && ClusterOk(p, c2)
    requires Leads(p, c, a, c1) && Leads(p, c1, b, c2)
    ensures Feasible(p, c, a + b) && Run(p, c, a + b) == c2 && Abs(p, c2) == Abs(p, c)
  {
    RunConcat(p, c, a, b);
    QuietRun(p, c, a);
    QuietRun(p, c1, b);
  }

  /** At rest a key can be processed, its F1 is its whole residual, and other kernels are idle. */
  lemma CanProcess<V(!new)>(p: Program<V>, c: Cluster<V>, k: Key)
    requires ValidProgram(p) && ClusterOk(p, c) && AtRest(c) && k in p.keys
    ensures Owner(p, k) < p.n && Enabled(p, c, Process(Owner(p, k), k))
    ensures k in c.workers[Owner(p, k)].rows && c.workers[Owner(p, k)].rows[k].delta == Abs(p, c)[k].delta
    ensures Rest(p, c, Owner(p, k), k) == p.m.zero
    ensures var ws := Step(p, c, Process(Owner(p, k), k)).workers;
            |ws| == p.n && forall j :: 0 <= j < p.n && j != Owner(p, k) ==> ws[j].output == []
  {
    assert WorkerOk(p, Owner(p, k), c.workers[Owner(p, k)]);
    DrainedResidual(p, c, k);
    RestAtRest(p, c, k);
  }

  lemma RestAtRest<V(!new)>(p: Program<V>, c: Cluster<V>, k: Key)
    requires ValidProgram(p) && ClusterOk(p, c) && AtRest(c) && k in p.keys
    ensures Rest(p, c, Owner(p, k), k) == p.m.zero
  {
    var o := Owner(p, k);
    forall i | 0 <= i < p.n && i != o
      ensures Held(p, c.workers[i], k) == p.m.zero
    {
      assert WorkerOk(p, i, c.workers[i]);
      HeldWhenDrained(p, i, c.workers[i], k);
    }
    HeldAllZero(p, Without(c.workers, o), k);
    assert BuffersEmpty(c.workers[o]);
    Unit(p.m, p.m.zero);
  }

  /** From every state at rest there is a round. */
  lemma SomeRound<V(!new)>(p: Program<V>, c: Cluster<V>) returns (acts: seq<Action<V>>)
    requires ValidProgram(p) && ClusterOk(p, c) && AtRest(c)
    ensures Round(p, c, acts)
  {
    hide Feasible, Run, AtRest, TableStep, Abs, ProcessesKey;
    acts := [];
    NoRun(p, c);
    var i := 0;
    while i < |p.keys|
      invariant i <= |p.keys| && Feasible(p, c, acts) && AtRest(Run(p, c, acts))
      invariant forall j :: 0 <= j < i ==> ProcessesKey(acts, p.keys[j])
    {
      var more, c' := ProcessAndSettle(p, Run(p, c, acts), p.keys[i]);
      RunConcat(p, c, acts, more);
      StillProcesses(acts, more, p.keys[..i]);
      FirstProcesses(acts, more, p.keys[i]);
      acts := acts + more;
      i := i + 1;
    }
    assert forall k :: k in p.keys ==> exists j :: 0 <= j < |p.keys| && p.keys[j] == k;
  }

  lemma NoRun<V(!new)>(p: Program<V>, c: Cluster<V>)
    requires ValidProgram(p) && ClusterOk(p, c)
    ensures Feasible(p, c, []) && Run(p, c, []) == c
  {
  }

  lemma FirstProcesses<V>(acts: seq<Action<V>>, more: seq<Action<V>>, k: Key)
    requires more != [] && more[0].Process? && more[0].key == k
    ensures ProcessesKey(acts + more, k)
  {
    assert (acts + more)[|acts|] == more[0];
  }

  lemma StillProcesses<V>(acts: seq<Action<V>>, more: seq<Action<V>>, ks: seq<Key>)
    requires forall j :: 0 <= j < |ks| ==> ProcessesKey(acts, ks[j])
    ensures forall j :: 0 <= j < |ks| ==> ProcessesKey(acts + more, ks[j])
  {
    forall j | 0 <= j < |ks|
      ensures ProcessesKey(acts + more, ks[j])
    {
      var l :| 0 <= l < |acts| && acts[l].Process? && acts[l].key == ks[j];
      assert (acts + more)[l] == acts[l];
    }
  }

  // ---------------------------------------------------------------- one after the other

  /** The schedule that the rounds form together. */
  ghost function Flat<V>(rounds: seq<seq<Action<V>>>): seq<Action<V>> {
    if rounds == [] then [] else Flat(rounds[..|rounds| - 1]) + rounds[|rounds| - 1]
  }

  ghost predicate AllRounds<V(!new)>(p: Program<V>, c: Cluster<V>, rounds: seq<seq<Action<V>>>)
    requires ValidProgram(p) && ClusterOk(p, c)
    decreases |rounds|
  {
    if rounds == [] then AtRest(c)
    else
      var before := rounds[..|rounds| - 1];
      AllRounds(p, c, before) && Feasible(p, c, Flat(before)) && Round(p, Run(p, c, Flat(before)), rounds[|rounds| - 1])
  }

  lemma {:induction false} RoundsRun<V(!new)>(p: Program<V>, c: Cluster<V>, rounds: seq<seq<Action<V>>>)
    requires ValidProgram(p) && ClusterOk(p, c) && AllRounds(p, c, rounds)
    ensures Feasible(p, c, Flat(rounds)) && AtRest(Run(p, c, Flat(rounds)))
    decreases |rounds|
  {
    if rounds != [] {
      RunConcat(p, c, Flat(rounds[..|rounds| - 1]), rounds[|rounds| - 1]);
    }
  }

  /** Any number of rounds is possible. */
  lemma {:induction false} SomeRounds<V(!new)>(p: Program<V>, c: Cluster<V>, r: nat)
    returns (rounds: seq<seq<Action<V>>>)
    requires ValidProgram(p) && ClusterOk(p, c) && AtRest(c)
    ensures AllRounds(p, c, rounds) && |rounds| == r
    decreases r
  {
    if r == 0 {
      rounds := [];
    } else {
      var before := SomeRounds(p, c, r - 1);
      RoundsRun(p, c, before);
      var last := SomeRound(p, Run(p, c, Flat(before)));
      rounds := before + [last];
      assert rounds[..|rounds| - 1] == before;
    }
  }

  lemma InitialAtRest<V(!new)>(p: Program<V>)
    requires p.n > 0
    ensures AtRest(Initial(p))
  {
    forall i | 0 <= i < p.n
      ensures Initial(p).workers[i].output == [] && BuffersEmpty(Initial(p).workers[i])
    {
      assert Initial(p).workers[i] == InitialWorker(p, i);
    }
  }
}
