/** The master's run loop: shard assignment, dispatch, reaping, work stealing and the barrier.
    Timers, the arrival of completion messages and their order are arbitrary choices. */
module Master {
  import opened Collections
  import opened Schedule
  import opened Balance
  import opened StealCost

  class Master {
    const c: Config
    const n: nat
    var work: seq<map<Taskid, Task>>
    var shards: seq<set<Taskid>>
    var owners: seq<map<Taskid, nat>>
    var running: set<(nat, Taskid)>
    var dispatched: nat
    var finished: nat
    /** current_run_.shards.size() */
    var total: nat
    var shardsAssigned: bool
    ghost var home: map<nat, nat>
    ghost var tasks: set<Taskid>
    ghost var launched: set<Taskid>
    ghost var reaped: set<Taskid>
    ghost var steals: seq<Taskid>

    ghost function View(): State
      reads this
    {
      State(work, shards, owners, running, dispatched, finished, total, home, tasks, launched, reaped, steals)
    }

    ghost predicate SomeAlive() { exists i :: 0 <= i < n && i < |c.alive| && c.alive[i] }

    /** Between runs: the last run, if any, is complete, and ownership is settled. */
    ghost predicate Ready()
      reads this
    {
      && n == |c.alive| && Served(c, View()) && finished == total && running == {}
      && (shardsAssigned ==> AllServed(c, View()) && ViewsAgree(c, View(), {}))
    }

    constructor (c: Config)
      requires |c.alive| > 0
      ensures Ready() && this.c == c && !shardsAssigned && home == map[]
    {
      this.c, n := c, |c.alive|;
      work, shards, owners := seq(|c.alive|, _ => map[]), seq(|c.alive|, _ => {}), seq(|c.alive|, _ => map[]);
      running, dispatched, finished, total, shardsAssigned := {}, 0, 0, 0, false;
      home, tasks, launched, reaped, steals := map[], {}, {}, {}, [];
    }

    // ---------------------------------------------------------------- shard assignment

    /** assign_shard: start or stop serving a shard number of every table. */
    method AssignShard(w: nat, shard: nat, service: bool)
      requires w < |shards|
      modifies this`shards
      ensures shards == old(shards)[w := if service then old(shards)[w] + Column(c, shard)
                                         else old(shards)[w] - Column(c, shard)]
    {
      var todo := c.tables.Keys;
      ghost var done: set<Taskid> := {};
      while todo != {}
        invariant todo <= c.tables.Keys
        invariant done == set t | t in c.tables && t !in todo && shard < c.tables[t] :: Taskid(t, shard)
        invariant |shards| == |old(shards)|
        invariant forall i :: 0 <= i < |shards| && i != w ==> shards[i] == old(shards)[i]
        invariant shards[w] == if service then old(shards)[w] + done else old(shards)[w] - done
        decreases todo
      {
        var t :| t in todo;
        todo := todo - {t};
        if shard < c.tables[t] {
          done := done + {Taskid(t, shard)};
          shards := shards[w := if service then shards[w] + {Taskid(t, shard)} else shards[w] - {Taskid(t, shard)}];
        }
      }
      assert done == Column(c, shard);
    }

    method WorkerForShard(id: Taskid) returns (w: int)
      requires |shards| == n
      ensures -1 <= w < n
      ensures w == -1 ==> forall i :: 0 <= i < n ==> id !in shards[i]
      ensures w != -1 ==> id in shards[w]
    {
      for i := 0 to n
        invariant forall j :: 0 <= j < i ==> id !in shards[j]
      {
        if id in shards[i] {
          return i;
        }
      }
      return -1;
    }

    /** The first of the alive workers serving the fewest shards. */
    method LeastLoaded() returns (best: nat)
      requires |shards| == n == |c.alive| && SomeAlive()
      ensures best < n && c.alive[best]
      ensures forall i :: 0 <= i < n && c.alive[i] ==> |shards[best]| <= |shards[i]|
      ensures forall i :: 0 <= i < best && c.alive[i] ==> |shards[best]| < |shards[i]|
    {
      var b := -1;
      for i := 0 to n
        invariant -1 <= b < i
        invariant b == -1 ==> forall j :: 0 <= j < i ==> !c.alive[j]
        invariant b != -1 ==> c.alive[b] && forall j :: 0 <= j < i && c.alive[j] ==> |shards[b]| <= |shards[j]|
        invariant forall j :: 0 <= j < b && c.alive[j] ==> |shards[b]| < |shards[j]|
      {
        if c.alive[i] && (b == -1 || |shards[i]| < |shards[b]|) {
          b := i;
        }
      }
      best := b;
    }

    /** assign_worker: a task goes to its shard's server; an unserved shard number is first
        given, for all tables at once, to the least loaded alive worker. */
    method AssignWorker(id: Taskid, size: nat) returns (w: nat)
      requires n == |c.alive| && Served(c, View()) && Known(c, id) && SomeAlive()
      modifies this`work, this`shards, this`home
      ensures Served(c, View()) && w < n
      ensures home == if id.shard in old(home) then old(home) else old(home)[id.shard := w]
      ensures home[id.shard] == w
      ensures id.shard in old(home) ==> shards == old(shards)
      ensures id.shard !in old(home) ==>
                && LeastAt(c, old(View()), w) && shards == ServeAt(c, old(View()), w, id.shard).shards
                && forall i :: 0 <= i < w && c.alive[i] ==> |old(shards)[w]| < |old(shards)[i]|
      ensures work == old(work)[w := old(work)[w][id := Task(Pending, size, false)]]
    {
      hide Served, Known;
      ghost var s := View();
      FindServer(c, s, id);
      var found := WorkerForShard(id);
      if found != -1 {
        w := found;
      } else {
        w := LeastLoaded();
        ServeNew(c, s, w, id.shard);
        AssignShard(w, id.shard, true);
        home := home[id.shard := w];
      }
      work := work[w := work[w][id := Task(Pending, size, false)]];
      SameServed(c, s.(shards := shards, home := home), View());
    }

    /** assign_tables: afterwards every shard of every table has a server. Starting from none, with
        equally many shards in all tables, the alive workers' loads differ by at most one. */
    method AssignTables(size: Taskid -> nat)
      requires n == |c.alive| && Served(c, View()) && SomeAlive()
      modifies this`work, this`shards, this`home, this`shardsAssigned
      ensures AllServed(c, View()) && shardsAssigned
      ensures old(home) == map[] ==> OnlyKnown(c, View())
      ensures old(home) == map[] && EqualTables(c) ==> Even(c, View())
    {
      hide Served, Even, Known, OnlyKnown;
      shardsAssigned := true;
      ghost var start := home == map[];
      if start {
        EvenStart(c, View());
        OnlyKnownStart(c, View());
      }
      var todo := c.tables.Keys;
      KnownTable(c);
      while todo != {}
        invariant todo <= c.tables.Keys && Served(c, View()) && shardsAssigned
        invariant forall id :: Known(c, id) && id.table !in todo ==> id.shard in home
        invariant start ==> OnlyKnown(c, View())
        invariant start && EqualTables(c) ==> Even(c, View())
        decreases todo
      {
        var t :| t in todo;
        todo := todo - {t};
        for j := 0 to c.tables[t]
          invariant Served(c, View()) && shardsAssigned
          invariant forall id ::
                      Known(c, id) && id.table !in todo && (id.table == t ==> id.shard < j) ==> id.shard in home
          invariant start ==> OnlyKnown(c, View())
          invariant start && EqualTables(c) ==> Even(c, View())
        {
          AssignOne(t, j, size(Taskid(t, j)), start);
        }
        KnownBelow(c);
      }
    }

    /** assign_worker for one shard, as the loop of assign_tables uses it. */
    method AssignOne(t: nat, j: nat, size: nat, ghost start: bool)
      requires n == |c.alive| && Served(c, View()) && SomeAlive() && t in c.tables && j < c.tables[t]
      requires start ==> OnlyKnown(c, View())
      requires start && EqualTables(c) ==> Even(c, View())
      modifies this`work, this`shards, this`home
      ensures Served(c, View()) && home.Keys == old(home).Keys + {j}
      ensures start ==> OnlyKnown(c, View())
      ensures start && EqualTables(c) ==> Even(c, View())
    {
      hide Served, Even, EqualTables, OnlyKnown, LeastAt;
      ghost var s := View();
      ServedShape(c, s);
      KnownShard(c, t, j);
      var w := AssignWorker(Taskid(t, j), size);
      ServedShape(c, View());
      if start {
        OnlyKnownStep(c, s, View(), t, j);
        if EqualTables(c) {
          if j !in s.home {
            EvenStep(c, s, w, t, j);
            EvenSame(c, ServeAt(c, s, w, j), View());
          } else {
            EvenSame(c, s, View());
          }
        }
      }
    }

    /** HandleShardAssignment at worker `v`, for the assignments that name worker `w`. */
    method HandleShardAssignment(v: nat, w: nat)
      requires n == |c.alive| && AllServed(c, View()) && v < n && w < n
      modifies this`owners
      ensures |owners| == n && forall u :: 0 <= u < n && u != v ==> owners[u] == old(owners)[u]
      ensures forall id :: id in shards[w] ==> id in owners[v] && owners[v][id] == w
      ensures forall id :: id !in shards[w] ==> SameAt(owners[v], old(owners)[v], id)
    {
      var todo := shards[w];
      while todo != {}
        invariant todo <= shards[w] && |owners| == n
        invariant forall u :: 0 <= u < n && u != v ==> owners[u] == old(owners)[u]
        invariant forall id :: id in shards[w] && id !in todo ==> id in owners[v] && owners[v][id] == w
        invariant forall id :: id !in shards[w] ==> SameAt(owners[v], old(owners)[v], id)
        decreases todo
      {
        var id :| id in todo;
        todo := todo - {id};
        var view: map<Taskid, nat> := owners[v][id := w];
        owners := owners[v := view];
      }
    }

    static ghost predicate SameAt(a: map<Taskid, nat>, b: map<Taskid, nat>, id: Taskid) {
      (id in a <==> id in b) && (id in a ==> a[id] == b[id])
    }

    static ghost predicate RightView(c: Config, home: map<nat, nat>, view: map<Taskid, nat>, upTo: nat) {
      forall id :: Known(c, id) && id.shard in home && home[id.shard] < upTo ==>
        id in view && view[id] == home[id.shard]
    }

    /** send_table_assignments: every worker has handled the whole assignment when it returns. */
    method SendTableAssignments()
      requires n == |c.alive| && AllServed(c, View())
      modifies this`owners
      ensures AllServed(c, View()) && ViewsAgree(c, View(), {})
    {
      for v := 0 to n
        invariant |owners| == n
        invariant forall u :: 0 <= u < v ==> RightView(c, home, owners[u], n)
      {
        for w := 0 to n
          invariant |owners| == n
          invariant forall u :: 0 <= u < v ==> RightView(c, home, owners[u], n)
          invariant RightView(c, home, owners[v], w)
        {
          HandleShardAssignment(v, w);
        }
      }
      forall u | 0 <= u < n
        ensures RightView(c, home, View().owners[u], n)
      {
        assert RightView(c, home, owners[u], n);
      }
    }

    /** assign_worker for a shard that already has a server. */
    method AddPending(id: Taskid, size: nat)
      requires n == |c.alive| && Fresh(c, View()) && SomeAlive() && Known(c, id)
      requires forall x :: x in tasks && x.shard == id.shard ==> x == id
      modifies this`work, this`shards, this`home, this`tasks
      ensures Fresh(c, View()) && home[id.shard] < n && View() == AddTask(old(View()), home[id.shard], id, size)
    {
      AddTaskFresh(c, View(), home[id.shard], id, size);
      var w := AssignWorker(id, size);
      tasks := tasks + {id};
    }

    static lemma OneMoreTask(table: nat, list: seq<nat>, i: nat)
      requires i < |list|
      ensures TasksOf(table, list[..i + 1]) == TasksOf(table, list[..i]) + {Taskid(table, list[i])}
      ensures forall x :: x in TasksOf(table, list[..i]) ==> x.table == table
    {
      assert list[..i + 1] == list[..i] + [list[i]];
    }

    /** assign_tasks: clears the old tasks and gives each listed shard a pending task; a shard
        listed again gets it again. */
    method AssignTasks(table: nat, list: seq<nat>, size: Taskid -> nat)
      requires n == |c.alive| && AllServed(c, View()) && ViewsAgree(c, View(), {}) && SomeAlive()
      requires table in c.tables && forall i :: 0 <= i < |list| ==> list[i] < c.tables[table]
      requires running == {} && finished == dispatched == 0 && total == |list|
      modifies this`work, this`shards, this`home, this`tasks, this`launched, this`reaped, this`steals
      ensures Consistent(c, View()) && ViewsAgree(c, View(), {})
      ensures tasks == TasksOf(table, list) && launched == {} && reaped == {} && steals == []
      ensures home == old(home) && shards == old(shards)
      ensures Sizes(work, size)
    {
      hide Fresh, Consistent, AllServed, ViewsAgree, Known;
      ghost var s := View();
      ShapedViews(c, s);
      work := seq(n, _ => map[]);
      tasks, launched, reaped, steals := {}, {}, {}, [];
      KeepServed(c, s, View());
      NoTasksFresh(c, View());
      for i := 0 to |list|
        invariant home == old(home) && shards == old(shards) && launched == {} && reaped == {} && steals == []
        invariant tasks == TasksOf(table, list[..i])
        invariant Fresh(c, View()) && |work| == n && Sizes(work, size)
      {
        OneMoreTask(table, list, i);
        KnownShard(c, table, list[i]);
        AddPending(Taskid(table, list[i]), size(Taskid(table, list[i])));
      }
      assert list[..|list|] == list;
      TaskCount(table, list);
      KeepViews(c, s, View());
      FreshConsistent(c, View());
    }

    /** Every task is pending, with the size of its shard, and not stolen. */
    static ghost predicate Sizes(work: seq<map<Taskid, Task>>, size: Taskid -> nat) {
      forall w, id :: 0 <= w < |work| && id in work[w] ==> work[w][id] == Task(Pending, size(id), false)
    }

    static ghost function TasksOf(table: nat, list: seq<nat>): set<Taskid> {
      set j | j in list :: Taskid(table, j)
    }

    // ---------------------------------------------------------------- dispatch

    /** get_next: some pending task becomes active and its request goes out. */
    method GetNext(w: nat) returns (id: Taskid)
      requires w < |work| && HasPending(View(), w)
      modifies this`work, this`running, this`launched
      ensures old(HasStatus(View(), w, id, Pending))
      ensures View() == Launch(old(View()), w, id).(dispatched := dispatched)
    {
      assert exists x :: HasStatus(View(), w, x, Pending) && x in work[w] && work[w][x].status == Pending;
      id :| id in work[w] && work[w][id].status == Pending;
      work := work[w := work[w][id := work[w][id].(status := Active)]];
      running := running + {(w, id)};
      launched := launched + {id};
    }

    /** The state as it will be once `dispatched` is set to `d`. */
    ghost function Counting(d: nat): State
      reads this
    {
      View().(dispatched := d)
    }

    /** One turn of dispatch_work. */
    method DispatchTo(i: nat, ghost s: State) returns (sent: bool, ghost s': State)
      requires i < |work| && s == Counting(s.dispatched) && Consistent(c, s) && Busy(s, i)
      modifies this`work, this`running, this`launched
      ensures s' == Counting(if sent then s.dispatched + 1 else s.dispatched)
      ensures Consistent(c, s') && Busy(s', i + 1) && |work| == old(|work|)
    {
      var pending := PendingSet(work[i]);
      var active := set id | id in work[i] && work[i][id].status == Active;
      s' := s;
      assert forall id :: HasStatus(s, i, id, Pending) <==> id in pending;
      assert forall id :: HasStatus(s, i, id, Active) <==> id in active;
      sent := |pending| > 0 && |active| == 0;
      if sent {
        assert HasPending(View(), i) by {
          var x :| x in pending;
          assert HasStatus(View(), i, x, Pending);
        }
        var id := GetNext(i);
        assert HasStatus(s, i, id, Pending);
        LaunchKeeps(c, s, i, id);
        LaunchBusy(c, s, i, id);
        s' := Launch(s, i, id);
      } else {
        StillBusy(s, i, pending, active);
      }
    }

    static lemma StillBusy(s: State, i: nat, pending: set<Taskid>, active: set<Taskid>)
      requires Busy(s, i) && (|pending| == 0 || |active| > 0)
      requires forall id :: HasStatus(s, i, id, Pending) <==> id in pending
      requires forall id :: HasStatus(s, i, id, Active) <==> id in active
      ensures Busy(s, i + 1)
    {
      if |active| > 0 {
        var a :| a in active;
        assert HasStatus(s, i, a, Active);
      }
    }

    /** dispatch_work: one request to every worker that has a pending and no active task. */
    method DispatchWork() returns (num: nat)
      requires n == |c.alive| && Consistent(c, View())
      modifies this`work, this`running, this`launched
      ensures Consistent(c, Counting(dispatched + num)) && Busy(Counting(dispatched + num), n)
    {
      hide Consistent, Busy;
      num := 0;
      ghost var s := View();
      BusyBelowNone(s);
      FullLength(c, s);
      for i := 0 to n
        invariant s == Counting(dispatched + num) && Consistent(c, s) && Busy(s, i) && |work| == n
      {
        var sent;
        sent, s := DispatchTo(i, s);
        if sent {
          num := num + 1;
        }
      }
    }

    // ---------------------------------------------------------------- reaping

    /** set_finished, with its two CHECKs as preconditions. */
    method SetFinished(w: nat, id: Taskid)
      requires w < |work| && id in work[w] && work[w][id].status == Active
      modifies this`work
      ensures work == old(work)[w := old(work)[w][id := old(work)[w][id].(status := Finished)]]
    {
      work := work[w := work[w][id := work[w][id].(status := Finished)]];
    }

    /** reap_one_task: the worker whose completion message was read, or -1 when the poll finds
        none, which is all it can find when nothing runs. */
    method ReapOneTask(arrived: bool) returns (w: int)
      requires LoopHead(c, View())
      modifies this`work, this`running, this`reaped
      ensures w == -1 <==> !arrived || old(running) == {}
      ensures w == -1 ==> View() == old(View())
      ensures w != -1 ==>
                exists id :: (w as int, id) in old(running) && ReapedBy(old(View()), View(), w, id)
      ensures w != -1 ==> Consistent(c, View().(finished := finished + 1)) && ViewsAgree(c, View(), {})
    {
      hide Consistent, Busy;
      if !arrived || running == {} {
        return -1;
      }
      ghost var s := View();
      var done :| done in running;
      assert done == (done.0, done.1);
      ReapedIsActive(c, s, done.0, done.1);
      FinishKeeps(c, s, done.0, done.1);
      SetFinished(done.0, done.1);
      running := running - {done};
      reaped := reaped + {done.1};
      w := done.0;
      assert ReapedBy(s, View(), w, done.1);
    }

    /** `id` of worker `w` went from active to finished; the caller counts it. */
    static ghost predicate ReapedBy(s: State, s': State, w: int, id: Taskid) {
      0 <= w < |s.work| && id in s.work[w] && s' == Finish(s, w, id).(finished := s.finished)
    }

    // ---------------------------------------------------------------- work stealing

    /** `src` is the first of the workers with the most pending tasks. */
    static ghost predicate FirstMost(work: seq<map<Taskid, Task>>, src: nat) {
      && src < |work|
      && (forall w :: 0 <= w < |work| ==> |PendingSet(work[w])| <= |PendingSet(work[src])|)
      && (forall w :: 0 <= w < src ==> |PendingSet(work[w])| < |PendingSet(work[src])|)
    }

    /** max_element with PendingCompare. */
    method MostPending() returns (src: nat)
      requires |work| > 0
      ensures FirstMost(work, src)
    {
      src := 0;
      for i := 1 to |work|
        invariant src < i
        invariant forall w :: 0 <= w < i ==> |PendingSet(work[w])| <= |PendingSet(work[src])|
        invariant forall w :: 0 <= w < src ==> |PendingSet(work[w])| < |PendingSet(work[src])|
      {
        if |PendingSet(work[src])| < |PendingSet(work[i])| {
          src := i;
        }
      }
    }

    /** What steal_work finds worth doing for `dst`, when its choices fall on `src` and `id`: there
        is something to take, it was never stolen, and the move pays. */
    ghost predicate Promising(s: State, dst: nat, src: nat, id: Taskid, time: real, average: real) {
      && c.stealing && dst < |c.alive| && c.alive[dst] && FirstMost(s.work, src)
      && id in PendingSet(s.work[src]) && !s.work[src][id].stolen
      && Worth(s.work[src], PendingSet(s.work[src]), id, time, average)
    }

    /** steal_work for the idle worker `dst`: the victim is the first worker with the most pending
        tasks, the loot one of its pending tasks. With a positive average shard size a theft happens
        exactly when it is promising; without one the test divides by zero, and may come out either
        way. */
    method StealWork(dst: nat, time: real, average: real, ghost moved: set<nat>)
      returns (stole: bool, ghost victim: nat, ghost loot: Taskid)
      requires n == |c.alive| && Consistent(c, View()) && ViewsAgree(c, View(), moved)
      requires dst < n && time >= 0.0 && !HasPending(View(), dst)
      requires forall r :: r in running ==> r.1.shard !in moved
      modifies this`work, this`shards, this`home, this`steals
      ensures !stole ==> View() == old(View())
      ensures stole ==> StealOf(old(View()), View(), victim, dst, loot)
      ensures c.stealing && c.alive[dst] ==>
                FirstMost(old(work), victim)
                && (PendingSet(old(work)[victim]) != {} ==> loot in PendingSet(old(work)[victim]))
      ensures average > 0.0 ==> (stole <==> Promising(old(View()), dst, victim, loot, time, average))
      ensures Consistent(c, View()) && ViewsAgree(c, View(), if stole then moved + {loot.shard} else moved)
      ensures forall r :: r in running ==> r.1.shard !in if stole then moved + {loot.shard} else moved
    {
      hide Consistent, ViewsAgree, Worth;
      ghost var s := View();
      FullLength(c, s);
      stole := false;
      victim, loot := 0, Taskid(0, 0);
      if !c.stealing || !c.alive[dst] {
        return;
      }
      var src := MostPending();
      var pending := PendingSet(work[src]);
      victim := src;
      if |pending| == 0 {
        return;
      }
      var id :| id in pending;
      loot := id;
      if work[src][id].stolen {
        return;
      }
      var worth: bool := *;
      if average > 0.0 {
        worth := WorthMoving(work[src], pending, id, time, average);
      }
      if !worth {
        return;
      }
      stole := true;
      assert HasStatus(s, src, id, Pending) && src != dst;
      StealKeeps(c, s, src, dst, id, moved);
      PendingNotRunning(c, s, src, id);
      ShapedAlways(c, s);
      MoveTask(src, dst, id);
    }

    /** With a positive average the only pending task of a worker is never taken. */
    lemma NeverTheOnly(s: State, dst: nat, src: nat, id: Taskid, time: real, average: real)
      requires average > 0.0 && time >= 0.0 && Promising(s, dst, src, id, time, average)
      ensures |PendingSet(s.work[src])| > 1
    {
      var pending := PendingSet(s.work[src]);
      if pending == {id} {
        OnlyTask(s.work[src], id, time, average);
      }
      assert pending == {id} + (pending - {id});
    }

    /** The transfer itself: the shard number is served by `dst` instead of `src`. */
    method MoveTask(src: nat, dst: nat, id: Taskid)
      requires Shaped(c, View()) && src < |c.alive| && dst < |c.alive| && src != dst && id in work[src]
      modifies this`work, this`shards, this`home, this`steals
      ensures View() == Steal(c, old(View()), src, dst, id)
    {
      var task := work[src][id].(stolen := true);
      AssignShard(dst, id.shard, true);
      AssignShard(src, id.shard, false);
      work := work[src := work[src] - {id}];
      work := work[dst := work[dst][id := task]];
      home := home[id.shard := dst];
      steals := steals + [id];
    }

    /** `id` was taken from `src`, a worker with the most pending tasks: pending, never stolen. */
    ghost predicate StealOf(s: State, s': State, src: nat, dst: nat, id: Taskid) {
      && Shaped(c, s) && c.stealing && dst < |c.alive| && c.alive[dst] && src != dst
      && FirstMost(s.work, src) && HasStatus(s, src, id, Pending) && !s.work[src][id].stolen
      && s' == Steal(c, s, src, dst, id)
    }

    /** All its tasks are finished, as idle_time demands. */
    static ghost predicate AllFinished(m: map<Taskid, Task>) { forall id :: id in m ==> m[id].status == Finished }

    /** For some choice of victim and loot, a theft by `dst` is not promising. */
    ghost predicate NothingFor(s: State, dst: nat, time: real, average: real) {
      exists src: nat, id :: FirstMost(s.work, src)
        && (PendingSet(s.work[src]) != {} ==> id in PendingSet(s.work[src]))
        && !Promising(s, dst, src, id, time, average)
    }

    /** The steal pass of the barrier loop over all workers, and the broadcast after it. `idle` are
        the workers that pass the tests of payoff and idle time. If the pass steals nothing, there
        was nothing promising for any of them. */
    method StealPass(idle: set<nat>, time: real, average: real)
      requires n == |c.alive| && Consistent(c, View()) && ViewsAgree(c, View(), {}) && time >= 0.0
      modifies this`work, this`shards, this`home, this`owners, this`steals
      ensures Consistent(c, View()) && ViewsAgree(c, View(), {}) && old(steals) <= steals
      ensures steals == old(steals) && average > 0.0 && c.stealing ==>
                forall i :: i in idle && i < n && c.alive[i] && i < |old(work)| && AllFinished(old(work)[i]) ==>
                  NothingFor(old(View()), i, time, average)
    {
      hide Consistent, ViewsAgree, Promising;
      var needUpdate := false;
      ghost var moved: set<nat>, start := {}, View();
      RunningStaysSafe(c, View(), {});
      for i := 0 to n
        invariant Consistent(c, View()) && ViewsAgree(c, View(), moved)
        invariant forall r :: r in running ==> r.1.shard !in moved
        invariant (needUpdate || moved == {}) && old(steals) <= steals
        invariant RunningSafe(View())
        invariant steals == old(steals) ==> View() == start
        invariant steals == old(steals) && average > 0.0 && c.stealing ==>
                    forall j :: j in idle && j < i && c.alive[j] && j < |start.work| && AllFinished(start.work[j]) ==>
                      NothingFor(start, j, time, average)
      {
        FullLength(c, View());
        ghost var s := View();
        var unfinished := set id | id in work[i] && work[i][id].status != Finished;
        if i in idle && |unfinished| == 0 {
          assert forall id :: HasStatus(s, i, id, Pending) ==> id in unfinished;
          var stole; ghost var victim, loot;
          stole, victim, loot := StealWork(i, time, average, moved);
          if stole {
            needUpdate := true;
            moved := moved + {loot.shard};
          } else if c.stealing && c.alive[i] && average > 0.0 {
            NothingBy(s, i, victim, loot, time, average);
          }
        } else if i in idle {
          StillWorking(work[i], unfinished);
        }
        RunningStaysSafe(c, View(), moved);
      }
      if needUpdate {
        SendAfterSteals();
      }
    }

    lemma NothingBy(s: State, dst: nat, src: nat, id: Taskid, time: real, average: real)
      requires FirstMost(s.work, src) && !Promising(s, dst, src, id, time, average)
      requires PendingSet(s.work[src]) != {} ==> id in PendingSet(s.work[src])
      ensures NothingFor(s, dst, time, average)
    {
    }

    static lemma StillWorking(m: map<Taskid, Task>, unfinished: set<Taskid>)
      requires |unfinished| > 0 && forall id :: id in unfinished ==> id in m && m[id].status != Finished
      ensures !AllFinished(m)
    {
      var id :| id in unfinished;
    }

    /** The broadcast after the thefts. */
    method SendAfterSteals()
      requires n == |c.alive| && Consistent(c, View())
      modifies this`owners
      ensures Consistent(c, View()) && ViewsAgree(c, View(), {})
    {
      hide ViewsAgree;
      ghost var s := View();
      SendTableAssignments();
      SameButOwners(c, s, View());
    }

    static lemma SameButOwners(c: Config, s: State, s': State)
      requires Consistent(c, s) && |s'.owners| == |s.owners| && s' == s.(owners := s'.owners)
      ensures Consistent(c, s')
    {
      assert forall w: nat, id, st :: HasStatus(s', w, id, st) == HasStatus(s, w, id, st);
      assert forall w :: 0 <= w < |s.work| ==> RightStatuses(s, s.work[w]) && RightStatuses(s', s'.work[w]);
    }

    // ---------------------------------------------------------------- a whole run

    /** dispatched_ += dispatch_work(...) */
    method DispatchAndCount()
      requires n == |c.alive| && Consistent(c, View()) && ViewsAgree(c, View(), {})
      modifies this`work, this`running, this`launched, this`dispatched
      ensures LoopHead(c, View())
    {
      hide Consistent, ViewsAgree, Busy;
      ghost var s := View();
      FullLength(c, s);
      ShapedViews(c, s);
      var num := DispatchWork();
      dispatched := dispatched + num;
      assert View() == Counting(dispatched);
      FullLength(c, View());
      KeepViews(c, s, View());
    }

    /** What a turn of the barrier loop does after the reaped task was counted: the steal pass if it
        is due, and the dispatch. */
    method AfterReap(periodic: bool, idle: set<nat>, time: real, average: real)
      requires n == |c.alive| && Consistent(c, View()) && ViewsAgree(c, View(), {})
      modifies this`work, this`shards, this`home, this`owners, this`running, this`launched, this`dispatched, this`steals
      ensures LoopHead(c, View()) && tasks == old(tasks) && finished == old(finished) && old(steals) <= steals
      ensures periodic && time > 0.2 && steals == old(steals) && average > 0.0 && c.stealing ==>
                forall i :: i in idle && i < n && c.alive[i] && i < |old(work)| && AllFinished(old(work)[i]) ==>
                  NothingFor(old(View()), i, time, average)
    {
      hide NothingFor, AllFinished;
      if periodic && time > 0.2 {
        StealPass(idle, time, average);
      }
      if dispatched < total {
        DispatchAndCount();
      } else {
        AllLaunchedBusy(c, View());
      }
    }

    /** One turn of the barrier loop. A poll without a message leaves everything as it is, and
        with nothing running there is no other poll. */
    method Turn(arrived: bool) returns (reapedOne: bool)
      requires n == |c.alive| && LoopHead(c, View())
      modifies this`work, this`shards, this`home, this`owners, this`running, this`launched, this`reaped,
               this`dispatched, this`finished, this`steals
      ensures LoopHead(c, View()) && tasks == old(tasks) && old(steals) <= steals
      ensures reapedOne <==> arrived && old(running) != {}
      ensures reapedOne ==> finished == old(finished) + 1
      ensures !reapedOne ==> View() == old(View())
    {
      hide Consistent, ViewsAgree, Busy, NothingFor, AllFinished;
      var w := ReapOneTask(arrived);
      reapedOne := w >= 0;
      if reapedOne {
        ghost var s := View();
        ShapedViews(c, s);
        finished := finished + 1;
        KeepViews(c, s, View());
        var periodic: bool, idle: set<nat> := *, *;
        var time, average: real := *, *;
        AfterReap(periodic, idle, time, average);
      }
    }

    /** barrier: turns until all listed shards are counted as finished (true), or until nothing
        is left to run (false): then every further turn of the source's loop is a poll without a
        message, forever. All tasks are finished either way. */
    method Barrier() returns (ended: bool)
      requires n == |c.alive| && LoopHead(c, View())
      modifies this`work, this`shards, this`home, this`owners, this`running, this`launched, this`reaped,
               this`dispatched, this`finished, this`steals
      ensures LoopHead(c, View()) && tasks == old(tasks) && old(steals) <= steals
      ensures finished == |tasks| && running == {}
      ensures ended <==> finished == total
    {
      RunningMeansUnfinished(c, View());
      RunningStaysSafe(c, View(), {});
      while finished < total && running != {}
        invariant LoopHead(c, View()) && tasks == old(tasks) && old(steals) <= steals && RunningSafe(View())
        invariant finished <= |tasks| <= total && (running == {} <==> finished == |tasks|)
        decreases |tasks| - finished
      {
        var polls: int := *;  // before the next message is there
        label head:
        while polls > 0
          invariant View() == old@head(View())
        {
          var _ := Turn(false);
          polls := polls - 1;
        }
        var _ := Turn(true);
        RunningMeansUnfinished(c, View());
        RunningStaysSafe(c, View(), {});
      }
      ended := finished == total;
    }

    /** The opening of run: counters, table assignment before the first run, tasks. */
    method Prepare(table: nat, list: seq<nat>, size: Taskid -> nat)
      requires Ready() && SomeAlive()
      requires table in c.tables && forall i :: 0 <= i < |list| ==> list[i] < c.tables[table]
      modifies this
      ensures n == |c.alive| && Consistent(c, View()) && ViewsAgree(c, View(), {}) && shardsAssigned
      ensures tasks == TasksOf(table, list) && total == |list| && launched == {} && reaped == {} && steals == []
      ensures Sizes(work, size)
    {
      hide Served, AllServed, ViewsAgree, Consistent;
      ghost var s := View();
      ServedShape(c, s);
      finished, dispatched := 0, 0;
      total := |list|;
      SameServed(c, s, View());
      if shardsAssigned {
        KeepServed(c, s, View());
        KeepViews(c, s, View());
      } else {
        AssignTables(size);
        SendTableAssignments();
      }
      AssignTasks(table, list, size);
    }

    /** run: one kernel over the listed shards. Each listed shard's task is dispatched exactly
        once and reaped exactly once, with each stolen at most once on the way. The barrier ends,
        and the master is ready for the next run, if and only if no shard is listed twice. */
    method Run(table: nat, list: seq<nat>, size: Taskid -> nat) returns (ended: bool)
      requires Ready() && SomeAlive()
      requires table in c.tables && forall i :: 0 <= i < |list| ==> list[i] < c.tables[table]
      modifies this
      ensures ended <==> NoDup(list)
      ensures ended ==> Ready() && finished == total
      ensures !ended ==> LoopHead(c, View()) && finished < total
      ensures shardsAssigned && total == |list| && running == {}
      ensures tasks == launched == reaped == TasksOf(table, list)
      ensures dispatched == finished == |tasks|
      ensures forall w, id :: 0 <= w < n && id in work[w] ==> work[w][id].status == Finished
      ensures NoDup(steals) && |steals| <= |tasks|
    {
      Prepare(table, list, size);
      DispatchAndCount();
      ended := Barrier();
      AllDone(c, View());
      TaskCount(table, list);
      StealsBounded(View());
    }
  }

  /** There are as many tasks as listed shards exactly when no shard is listed twice. */
  lemma {:induction false} TaskCount(table: nat, list: seq<nat>)
    ensures |Master.TasksOf(table, list)| <= |list|
    ensures |Master.TasksOf(table, list)| == |list| <==> NoDup(list)
  {
    if list != [] {
      var rest, last := list[..|list| - 1], list[|list| - 1];
      TaskCount(table, rest);
      assert list == rest + [last];
      assert Master.TasksOf(table, list) == Master.TasksOf(table, rest) + {Taskid(table, last)};
      assert Taskid(table, last) in Master.TasksOf(table, rest) <==> last in rest;
      if NoDup(rest) && last !in rest {
        assert NoDup(list);
      }
      if NoDup(list) {
        assert forall i :: 0 <= i < |rest| ==> list[i] == rest[i];
      }
    }
  }

  /** With a repetition no reachable loop head has the loop's exit condition, and once all tasks
      are finished nothing is left to reap. */
  lemma RepetitionNeverEnds(c: Config, s: State, table: nat, list: seq<nat>)
    requires LoopHead(c, s) && s.tasks == Master.TasksOf(table, list) && s.total == |list|
    ensures !NoDup(list) ==> s.finished < s.total
    ensures !NoDup(list) && s.finished == |s.tasks| ==> s.running == {}
    ensures NoDup(list) && s.finished < s.total ==> s.running != {}
  {
    TaskCount(table, list);
    RunningMeansUnfinished(c, s);
  }

  /** For example, shard 0 listed twice is one task, but counted as two. */
  lemma ShardTwice(table: nat)
    ensures !NoDup([0, 0]) && Master.TasksOf(table, [0, 0]) == {Taskid(table, 0)} && |[0, 0]| == 2
  {
    assert [0, 0][0] == [0, 0][1];
  }
}
