/** The state of the master's run scheduler and what its transitions keep. The tasks of a
    run go from pending to active to finished; a pending task may be stolen on the way. */
module Schedule {
  import opened Collections

  datatype Taskid = Taskid(table: nat, shard: nat)

  datatype Status = Pending | Active | Finished

  datatype Task = Task(status: Status, size: nat, stolen: bool)

  /** The table registry (table id to number of shards), the workers, and FLAGS_work_stealing. */
  datatype Config = Config(tables: map<nat, nat>, alive: seq<bool>, stealing: bool)

  /** `work`, `shards` and `owners` hold, per worker, its tasks, the shards it serves and its
      own view of all shard owners; `running` holds the kernel requests whose completion has
      not been reaped; `home` says which worker each shard number lives on; `tasks`,
      `launched` and `reaped` are the run's tasks and those dispatched and reaped so far;
      `steals` lists the stolen ones in the order of the thefts. */
  datatype State = State(
    work: seq<map<Taskid, Task>>, shards: seq<set<Taskid>>, owners: seq<map<Taskid, nat>>,
    running: set<(nat, Taskid)>, dispatched: nat, finished: nat, total: nat,
    home: map<nat, nat>, tasks: set<Taskid>, launched: set<Taskid>, reaped: set<Taskid>, steals: seq<Taskid>)

  ghost predicate Known(c: Config, id: Taskid) {
    id.table in c.tables && id.shard < c.tables[id.table]
  }

  /** All tables' shards with this number. */
  ghost function Column(c: Config, shard: nat): set<Taskid> {
    set t | t in c.tables && shard < c.tables[t] :: Taskid(t, shard)
  }

  // ---------------------------------------------------------------- invariants

  ghost predicate Shaped(c: Config, s: State) {
    |c.alive| > 0 && |s.work| == |s.shards| == |s.owners| == |c.alive|
  }

  /** Equal shard numbers of all tables are served together, each by one worker. */
  ghost predicate Served(c: Config, s: State) {
    && Shaped(c, s)
    && (forall j :: j in s.home ==> s.home[j] < |c.alive|)
    && forall w, id :: 0 <= w < |c.alive| ==>
         (id in s.shards[w] <==> Known(c, id) && id.shard in s.home && s.home[id.shard] == w)
  }

  ghost predicate AllServed(c: Config, s: State) {
    Served(c, s) && forall id :: Known(c, id) ==> id.shard in s.home
  }

  /** Every worker's owner view is right, except for the shard numbers in `moved`. */
  ghost predicate ViewsAgree(c: Config, s: State, moved: set<nat>) {
    && Shaped(c, s)
    && forall w, id :: 0 <= w < |c.alive| && Known(c, id) && id.shard in s.home && id.shard !in moved ==>
         id in s.owners[w] && s.owners[w][id] == s.home[id.shard]
  }

  /** Every task of the run sits at its shard's server, and nowhere else. */
  ghost predicate TasksPlaced(c: Config, s: State) {
    && Shaped(c, s)
    && (forall id :: id in s.tasks ==> Known(c, id) && id.shard in s.home)
    && (forall a, b :: a in s.tasks && b in s.tasks && a.shard == b.shard ==> a == b)
    && forall w, id :: 0 <= w < |s.work| ==> (id in s.work[w] <==> id in s.tasks && s.home[id.shard] == w)
  }

  function StatusOf(s: State, id: Taskid): Status {
    if id in s.reaped then Finished else if id in s.launched then Active else Pending
  }

  ghost predicate StatusesRight(s: State) {
    && s.reaped <= s.launched <= s.tasks
    && forall w :: 0 <= w < |s.work| ==> RightStatuses(s, s.work[w])
  }

  ghost predicate RightStatuses(s: State, m: map<Taskid, Task>) {
    forall id :: id in m ==> m[id].status == StatusOf(s, id)
  }

  ghost predicate HasStatus(s: State, w: nat, id: Taskid, st: Status) {
    w < |s.work| && id in s.work[w] && s.work[w][id].status == st
  }

  /** No worker has two active tasks, and the running kernels are the active tasks. */
  ghost predicate OneActive(s: State) {
    && (forall w: nat, a, b :: HasStatus(s, w, a, Active) && HasStatus(s, w, b, Active) ==> a == b)
    && (forall w: nat, id :: (w, id) in s.running <==> HasStatus(s, w, id, Active))
  }

  /** `total` counts the listed shards, so it exceeds the number of tasks when one repeats. */
  ghost predicate Counted(s: State) {
    s.finished == |s.reaped| && s.dispatched == |s.launched| && |s.tasks| <= s.total
  }

  /** Every theft has left its mark on its task, and no task was stolen twice. */
  ghost predicate StealsMarked(s: State) {
    && NoDup(s.steals)
    && (forall i :: 0 <= i < |s.steals| ==> s.steals[i] in s.tasks)
    && (forall w, id :: 0 <= w < |s.work| && id in s.work[w] && id in s.steals ==> s.work[w][id].stolen)
  }

  /** What holds at all times during a run. */
  ghost predicate Consistent(c: Config, s: State) {
    && AllServed(c, s) && TasksPlaced(c, s) && StatusesRight(s) && OneActive(s)
    && Counted(s) && StealsMarked(s)
  }

  /** pending(): the pending tasks of a worker. */
  function PendingSet(m: map<Taskid, Task>): set<Taskid> { set id | id in m && m[id].status == Pending }

  ghost predicate HasPending(s: State, w: nat) { exists id :: HasStatus(s, w, id, Pending) }

  ghost predicate HasActive(s: State, w: nat) { exists id :: HasStatus(s, w, id, Active) }

  /** Every worker below `upTo` with a pending task has an active one. */
  ghost predicate Busy(s: State, upTo: nat) {
    forall w: nat :: w < upTo && HasPending(s, w) ==> HasActive(s, w)
  }

  /** What holds at the head of the barrier loop. */
  ghost predicate LoopHead(c: Config, s: State) {
    Consistent(c, s) && ViewsAgree(c, s, {}) && Busy(s, |s.work|)
  }

  // ---------------------------------------------------------------- transitions

  /** assign_task: a new pending task at worker `w`. */
  function AddTask(s: State, w: nat, id: Taskid, size: nat): State
    requires w < |s.work|
  {
    s.(work := s.work[w := s.work[w][id := Task(Pending, size, false)]], tasks := s.tasks + {id})
  }

  /** get_next: pending to active, and the kernel request goes out. */
  function Launch(s: State, w: nat, id: Taskid): State
    requires w < |s.work| && id in s.work[w]
  {
    s.(work := s.work[w := s.work[w][id := s.work[w][id].(status := Active)]],
       running := s.running + {(w, id)}, launched := s.launched + {id}, dispatched := s.dispatched + 1)
  }

  /** reap_one_task and set_finished: active to finished. */
  function Finish(s: State, w: nat, id: Taskid): State
    requires w < |s.work| && id in s.work[w]
  {
    s.(work := s.work[w := s.work[w][id := s.work[w][id].(status := Finished)]],
       running := s.running - {(w, id)}, reaped := s.reaped + {id}, finished := s.finished + 1)
  }

  /** steal_work: task `id` and its shard number, for all tables, go from `src` to `dst`. */
  ghost function Steal(c: Config, s: State, src: nat, dst: nat, id: Taskid): State
    requires Shaped(c, s) && src < |c.alive| && dst < |c.alive| && id in s.work[src]
  {
    var t := s.work[src][id].(stolen := true);
    var served := s.shards[dst := s.shards[dst] + Column(c, id.shard)];
    var w1 := s.work[src := s.work[src] - {id}];
    s.(work := w1[dst := w1[dst][id := t]],
       shards := served[src := served[src] - Column(c, id.shard)],
       home := s.home[id.shard := dst],
       steals := s.steals + [id])
  }

  // ---------------------------------------------------------------- what they keep

  /** Tasks are being handed out; none has been dispatched. */
  ghost predicate Fresh(c: Config, s: State) {
    AllServed(c, s) && TasksPlaced(c, s) && StatusesRight(s) && s.launched == {} && s.running == {}
  }

  lemma NoTasksFresh(c: Config, s: State)
    requires AllServed(c, s) && s.tasks == s.launched == s.reaped == {} && s.running == {}
    requires forall w :: 0 <= w < |s.work| ==> s.work[w] == map[]
    ensures Fresh(c, s)
  {
  }

  lemma AddTaskFresh(c: Config, s: State, w: nat, id: Taskid, size: nat)
    requires Fresh(c, s) && Known(c, id) && w < |s.work| && s.home[id.shard] == w
    requires forall x :: x in s.tasks && x.shard == id.shard ==> x == id
    ensures Fresh(c, AddTask(s, w, id, size))
  {
    var s' := AddTask(s, w, id, size);
    forall v | 0 <= v < |s'.work|
      ensures RightStatuses(s', s'.work[v])
    {
      assert RightStatuses(s, s.work[v]);
    }
  }

  lemma FreshConsistent(c: Config, s: State)
    requires Fresh(c, s) && s.dispatched == s.finished == 0 && |s.tasks| <= s.total && s.steals == []
    ensures Consistent(c, s)
  {
    forall w: nat, id
      ensures !HasStatus(s, w, id, Active)
    {
      assert w < |s.work| ==> RightStatuses(s, s.work[w]);
    }
  }

  lemma LaunchStatus(s: State, w: nat, id: Taskid, v: nat, x: Taskid, st: Status)
    requires HasStatus(s, w, id, Pending)
    ensures HasStatus(Launch(s, w, id), v, x, st) <==>
              if (v, x) == (w, id) then st == Active else HasStatus(s, v, x, st)
  {
  }

  lemma FinishStatus(s: State, w: nat, id: Taskid, v: nat, x: Taskid, st: Status)
    requires HasStatus(s, w, id, Active)
    ensures HasStatus(Finish(s, w, id), v, x, st) <==>
              if (v, x) == (w, id) then st == Finished else HasStatus(s, v, x, st)
  {
  }

  lemma LaunchOneActive(c: Config, s: State, w: nat, id: Taskid)
    requires OneActive(s) && HasStatus(s, w, id, Pending) && !HasActive(s, w)
    ensures OneActive(Launch(s, w, id))
  {
    var s' := Launch(s, w, id);
    forall v: nat, x
      ensures (v, x) in s'.running <==> HasStatus(s', v, x, Active)
    {
      LaunchStatus(s, w, id, v, x, Active);
    }
    forall v: nat, a, b | HasStatus(s', v, a, Active) && HasStatus(s', v, b, Active)
      ensures a == b
    {
      LaunchStatus(s, w, id, v, a, Active);
      LaunchStatus(s, w, id, v, b, Active);
    }
  }

  lemma LaunchStatuses(c: Config, s: State, w: nat, id: Taskid)
    requires TasksPlaced(c, s) && StatusesRight(s) && HasStatus(s, w, id, Pending)
    ensures id !in s.launched
    ensures TasksPlaced(c, Launch(s, w, id)) && StatusesRight(Launch(s, w, id))
  {
    var s' := Launch(s, w, id);
    assert RightStatuses(s, s.work[w]);
    forall v | 0 <= v < |s'.work|
      ensures RightStatuses(s', s'.work[v])
    {
      assert RightStatuses(s, s.work[v]) && (id in s.work[v] <==> v == w);
    }
  }

  /** Dispatching a pending task of an idle worker: it was never launched before. */
  lemma LaunchKeeps(c: Config, s: State, w: nat, id: Taskid)
    requires Consistent(c, s) && HasStatus(s, w, id, Pending) && !HasActive(s, w)
    ensures id !in s.launched
    ensures Consistent(c, Launch(s, w, id))
  {
    LaunchStatuses(c, s, w, id);
    LaunchOneActive(c, s, w, id);
    hide TasksPlaced, StatusesRight, OneActive, HasStatus;
    LaunchMarks(c, s, w, id);
  }

  /** Changing the status of a task keeps services and the marks of the thefts. */
  lemma LaunchMarks(c: Config, s: State, w: nat, id: Taskid)
    requires AllServed(c, s) && StealsMarked(s) && w < |s.work| && id in s.work[w]
    ensures AllServed(c, Launch(s, w, id)) && StealsMarked(Launch(s, w, id))
    ensures AllServed(c, Finish(s, w, id)) && StealsMarked(Finish(s, w, id))
  {
  }

  /** Reaping a running kernel: its worker holds it, and it is active, so the
      CHECKs of set_finished cannot fire. */
  lemma ReapedIsActive(c: Config, s: State, w: nat, id: Taskid)
    requires Consistent(c, s) && (w, id) in s.running
    ensures w < |s.work| && id in s.work[w] && s.work[w][id].status == Active
    ensures id in s.launched && id !in s.reaped
  {
    assert HasStatus(s, w, id, Active) && RightStatuses(s, s.work[w]);
    assert StatusOf(s, id) == Active;
  }

  lemma FinishKeeps(c: Config, s: State, w: nat, id: Taskid)
    requires Consistent(c, s) && (w, id) in s.running
    ensures w < |s.work| && id in s.work[w]
    ensures Consistent(c, Finish(s, w, id))
  {
    ReapedIsActive(c, s, w, id);
    LaunchMarks(c, s, w, id);
    FinishStatuses(c, s, w, id);
    FinishOneActive(s, w, id);
    hide TasksPlaced, StatusesRight, OneActive, HasStatus, AllServed, StealsMarked;
  }

  lemma FinishStatuses(c: Config, s: State, w: nat, id: Taskid)
    requires TasksPlaced(c, s) && StatusesRight(s) && HasStatus(s, w, id, Active)
    ensures TasksPlaced(c, Finish(s, w, id)) && StatusesRight(Finish(s, w, id))
  {
    var s' := Finish(s, w, id);
    assert RightStatuses(s, s.work[w]);
    FinishPlaced(c, s, w, id);
    hide TasksPlaced;
    forall v | 0 <= v < |s'.work|
      ensures RightStatuses(s', s'.work[v])
    {
      assert RightStatuses(s, s.work[v]);
    }
  }

  lemma FinishPlaced(c: Config, s: State, w: nat, id: Taskid)
    requires TasksPlaced(c, s) && w < |s.work| && id in s.work[w]
    ensures TasksPlaced(c, Finish(s, w, id))
    ensures forall v :: 0 <= v < |s.work| ==> (id in s.work[v] <==> v == w)
  {
  }

  lemma FinishOneActive(s: State, w: nat, id: Taskid)
    requires OneActive(s) && HasStatus(s, w, id, Active)
    ensures OneActive(Finish(s, w, id))
  {
    var s' := Finish(s, w, id);
    forall v: nat, x
      ensures (v, x) in s'.running <==> HasStatus(s', v, x, Active)
    {
      FinishStatus(s, w, id, v, x, Active);
    }
    forall v: nat, a, b | HasStatus(s', v, a, Active) && HasStatus(s', v, b, Active)
      ensures a == b
    {
      FinishStatus(s, w, id, v, a, Active);
      FinishStatus(s, w, id, v, b, Active);
    }
  }

  lemma StealServed(c: Config, s: State, src: nat, dst: nat, id: Taskid)
    requires AllServed(c, s) && TasksPlaced(c, s) && HasStatus(s, src, id, Pending) && dst < |c.alive| && dst != src
    ensures AllServed(c, Steal(c, s, src, dst, id))
  {
    var s' := Steal(c, s, src, dst, id);
    forall w, x | 0 <= w < |c.alive|
      ensures x in s'.shards[w] <==> Known(c, x) && x.shard in s'.home && s'.home[x.shard] == w
    {
      assert x in Column(c, id.shard) <==> Known(c, x) && x.shard == id.shard;
    }
  }

  lemma StealPlaced(c: Config, s: State, src: nat, dst: nat, id: Taskid)
    requires TasksPlaced(c, s) && HasStatus(s, src, id, Pending) && dst < |c.alive| && dst != src
    ensures TasksPlaced(c, Steal(c, s, src, dst, id))
  {
    var s' := Steal(c, s, src, dst, id);
    forall w, x | 0 <= w < |s'.work|
      ensures x in s'.work[w] <==> x in s'.tasks && s'.home[x.shard] == w
    {
      assert x in s.work[w] <==> x in s.tasks && s.home[x.shard] == w;
    }
  }

  lemma StealStatus(c: Config, s: State, src: nat, dst: nat, id: Taskid, w: nat, x: Taskid, st: Status)
    requires TasksPlaced(c, s) && HasStatus(s, src, id, Pending) && dst < |c.alive| && dst != src
    ensures HasStatus(Steal(c, s, src, dst, id), w, x, st) <==>
              if x == id then w == dst && st == Pending else HasStatus(s, w, x, st)
  {
    assert w < |s.work| ==> (id in s.work[w] <==> s.home[id.shard] == w);
  }

  /** Stealing a pending task keeps everything, except that the owner views of its shard
      number are stale until the next assignment broadcast. */
  lemma StealKeeps(c: Config, s: State, src: nat, dst: nat, id: Taskid, moved: set<nat>)
    requires Consistent(c, s) && HasStatus(s, src, id, Pending) && dst < |c.alive| && dst != src
    requires ViewsAgree(c, s, moved) && !s.work[src][id].stolen
    ensures Consistent(c, Steal(c, s, src, dst, id))
    ensures ViewsAgree(c, Steal(c, s, src, dst, id), moved + {id.shard})
  {
    StealServed(c, s, src, dst, id);
    StealPlaced(c, s, src, dst, id);
    StealMarks(c, s, src, dst, id);
    hide AllServed, TasksPlaced, StealsMarked;
    StealRunning(c, s, src, dst, id);
  }

  lemma StealMarks(c: Config, s: State, src: nat, dst: nat, id: Taskid)
    requires TasksPlaced(c, s) && StealsMarked(s) && HasStatus(s, src, id, Pending) && dst < |c.alive| && dst != src
    requires !s.work[src][id].stolen
    ensures StealsMarked(Steal(c, s, src, dst, id))
  {
    assert id !in s.steals;
  }

  lemma StealRunning(c: Config, s: State, src: nat, dst: nat, id: Taskid)
    requires TasksPlaced(c, s) && StatusesRight(s) && OneActive(s)
    requires HasStatus(s, src, id, Pending) && dst < |c.alive| && dst != src
    ensures StatusesRight(Steal(c, s, src, dst, id)) && OneActive(Steal(c, s, src, dst, id))
  {
    var s' := Steal(c, s, src, dst, id);
    assert StatusesRight(s') by {
      forall w | 0 <= w < |s'.work|
        ensures RightStatuses(s', s'.work[w])
      {
        assert RightStatuses(s, s.work[w]) && RightStatuses(s, s.work[src]);
      }
    }
    assert OneActive(s') by {
      forall w: nat, x
        ensures HasStatus(s', w, x, Active) <==> HasStatus(s, w, x, Active)
      {
        StealStatus(c, s, src, dst, id, w, x, Active);
        assert w < |s.work| ==> RightStatuses(s, s.work[w]);
        assert RightStatuses(s, s.work[src]);
      }
    }
  }

  // ---------------------------------------------------------------- the properties

  /** Exactly one server for every shard of every table, the same for all tables. */
  lemma OneServer(c: Config, s: State, id: Taskid)
    requires AllServed(c, s) && Known(c, id)
    ensures exists w :: 0 <= w < |s.shards| && id in s.shards[w]
    ensures forall v, w ::
              0 <= v < |s.shards| && 0 <= w < |s.shards| && id in s.shards[v] && id in s.shards[w] ==> v == w
    ensures forall w, t :: 0 <= w < |s.shards| && id in s.shards[w] && Known(c, Taskid(t, id.shard)) ==>
              Taskid(t, id.shard) in s.shards[w]
  {
    assert id in s.shards[s.home[id.shard]];
  }

  /** The "Received a shard I can't work on" abort is unreachable: whenever a worker looks at
      a kernel request meant for it, its own view names it as the owner. */
  lemma RunningAtOwner(c: Config, s: State, w: nat, id: Taskid, moved: set<nat>)
    requires Consistent(c, s) && ViewsAgree(c, s, moved) && (w, id) in s.running && id.shard !in moved
    ensures w < |s.owners| && id in s.owners[w] && s.owners[w][id] == w
  {
    ReapedIsActive(c, s, w, id);
  }

  /** Every running kernel is at a worker whose own view names it as the shard's owner. */
  ghost predicate RunningSafe(s: State) {
    forall r :: r in s.running ==> r.0 < |s.owners| && r.1 in s.owners[r.0] && s.owners[r.0][r.1] == r.0
  }

  /** The workers that run something are not among those whose shard just moved. */
  lemma RunningStaysSafe(c: Config, s: State, moved: set<nat>)
    requires Consistent(c, s) && ViewsAgree(c, s, moved)
    requires forall r :: r in s.running ==> r.1.shard !in moved
    ensures RunningSafe(s)
  {
    forall r | r in s.running
      ensures r.0 < |s.owners| && r.1 in s.owners[r.0] && s.owners[r.0][r.1] == r.0
    {
      assert r == (r.0, r.1);
      RunningAtOwner(c, s, r.0, r.1, moved);
    }
  }

  /** Dispatching at worker `w` makes it busy and leaves the others as they were. */
  lemma LaunchBusy(c: Config, s: State, w: nat, id: Taskid)
    requires Consistent(c, s) && HasStatus(s, w, id, Pending) && Busy(s, w)
    ensures Busy(Launch(s, w, id), w + 1)
  {
    var s' := Launch(s, w, id);
    assert HasStatus(s', w, id, Active);
    forall v: nat | v < w && HasPending(s', v)
      ensures HasActive(s', v)
    {
      var x :| HasStatus(s', v, x, Pending);
      LaunchStatus(s, w, id, v, x, Pending);
      assert HasPending(s, v);
      var a :| HasStatus(s, v, a, Active);
      LaunchStatus(s, w, id, v, a, Active);
    }
  }

  lemma AllLaunchedBusy(c: Config, s: State)
    requires Consistent(c, s) && s.dispatched >= s.total
    ensures Busy(s, |s.work|)
  {
    SubsetSize(s.launched, s.tasks);
    SameSize(s.launched, s.tasks);
    forall w: nat, id | w < |s.work| && id in s.work[w]
      ensures s.work[w][id].status != Pending
    {
      assert RightStatuses(s, s.work[w]);
    }
  }

  /** A stolen task is pending, so no kernel runs on the shard that moves. */
  lemma PendingNotRunning(c: Config, s: State, w: nat, id: Taskid)
    requires Consistent(c, s) && HasStatus(s, w, id, Pending)
    ensures forall r :: r in s.running ==> r.1.shard != id.shard
  {
    assert RightStatuses(s, s.work[w]);
    forall r | r in s.running
      ensures r.1.shard != id.shard
    {
      assert r == (r.0, r.1);
      ReapedIsActive(c, s, r.0, r.1);
      assert r.1 in s.tasks && id in s.tasks;
    }
  }

  /** A known shard is served exactly by its home, if it has one. */
  lemma FindServer(c: Config, s: State, id: Taskid)
    requires Served(c, s) && Known(c, id)
    ensures Shaped(c, s)
    ensures forall w :: 0 <= w < |c.alive| ==> (id in s.shards[w] <==> id.shard in s.home && s.home[id.shard] == w)
    ensures id.shard in s.home ==> s.home[id.shard] < |c.alive| && id in s.shards[s.home[id.shard]]
  {
  }

  /** Giving an unserved shard number of all tables to a worker. */
  lemma ServeNew(c: Config, s: State, w: nat, shard: nat)
    requires Served(c, s) && w < |c.alive| && shard !in s.home
    ensures Served(c, s.(shards := s.shards[w := s.shards[w] + Column(c, shard)], home := s.home[shard := w]))
  {
    var s' := s.(shards := s.shards[w := s.shards[w] + Column(c, shard)], home := s.home[shard := w]);
    forall v, x | 0 <= v < |c.alive|
      ensures x in s'.shards[v] <==> Known(c, x) && x.shard in s'.home && s'.home[x.shard] == v
    {
      assert x in Column(c, shard) <==> Known(c, x) && x.shard == shard;
    }
  }

  lemma SameServed(c: Config, s: State, s': State)
    requires Served(c, s) && Shaped(c, s') && s'.shards == s.shards && s'.home == s.home
    ensures Served(c, s')
  {
  }

  lemma ShapedAlways(c: Config, s: State)
    requires Consistent(c, s)
    ensures Shaped(c, s)
  {
  }

  lemma ServedShape(c: Config, s: State)
    requires Served(c, s)
    ensures Shaped(c, s)
  {
  }

  lemma KnownShard(c: Config, table: nat, shard: nat)
    requires table in c.tables && shard < c.tables[table]
    ensures Known(c, Taskid(table, shard))
  {
  }

  lemma ShapedViews(c: Config, s: State)
    requires ViewsAgree(c, s, {})
    ensures Shaped(c, s)
  {
  }

  /** Service and owner views depend on these components only. */
  lemma KeepServed(c: Config, s: State, s': State)
    requires AllServed(c, s) && Shaped(c, s') && s'.shards == s.shards && s'.home == s.home
    ensures AllServed(c, s')
  {
  }

  lemma KeepViews(c: Config, s: State, s': State)
    requires ViewsAgree(c, s, {}) && Shaped(c, s') && s'.owners == s.owners && s'.home == s.home
    ensures ViewsAgree(c, s', {})
  {
  }

  lemma BusyBelowNone(s: State)
    ensures Busy(s, 0)
  {
  }

  lemma FullLength(c: Config, s: State)
    requires Consistent(c, s)
    ensures |s.work| == |c.alive|
  {
  }

  /** No stall: at a loop head, a task that is not finished means a running kernel to reap. */
  lemma NoStall(c: Config, s: State)
    requires LoopHead(c, s) && s.finished < |s.tasks|
    ensures exists w, id :: (w, id) in s.running
  {
    assert s.tasks == s.reaped + (s.tasks - s.reaped);
    assert |s.tasks - s.reaped| > 0;
    var id :| id in s.tasks - s.reaped;
    var w := s.home[id.shard];
    assert id in s.work[w] && RightStatuses(s, s.work[w]);
    if id in s.launched {
      assert HasStatus(s, w, id, Active);
    } else {
      assert HasStatus(s, w, id, Pending) && HasPending(s, w);
      var a :| HasStatus(s, w, a, Active);
    }
  }

  /** When as many are finished as there are tasks, every task was dispatched once and reaped
      once, and nothing runs. */
  lemma AllDone(c: Config, s: State)
    requires Consistent(c, s) && s.finished == |s.tasks|
    ensures s.reaped == s.launched == s.tasks && s.dispatched == |s.tasks| && s.running == {}
    ensures forall w, id :: 0 <= w < |s.work| && id in s.work[w] ==> s.work[w][id].status == Finished
  {
    SameSize(s.reaped, s.tasks);
    forall r | r in s.running
      ensures false
    {
      ReapedIsActive(c, s, r.0, r.1);
    }
    forall w, id | 0 <= w < |s.work| && id in s.work[w]
      ensures s.work[w][id].status == Finished
    {
      assert RightStatuses(s, s.work[w]);
    }
  }

  /** At a loop head there is something to reap exactly while some task is not finished. */
  lemma RunningMeansUnfinished(c: Config, s: State)
    requires LoopHead(c, s)
    ensures s.finished <= |s.tasks| <= s.total
    ensures s.running == {} <==> s.finished == |s.tasks|
  {
    SubsetSize(s.reaped, s.tasks);
    if s.finished == |s.tasks| {
      AllDone(c, s);
    } else {
      NoStall(c, s);
    }
  }

  /** There are at most as many thefts in a run as tasks. */
  lemma StealsBounded(s: State)
    requires StealsMarked(s)
    ensures |s.steals| <= |s.tasks|
  {
    NoDupSize(s.steals, s.tasks);
  }
}
