/** The test of steal_work: the time the victim still needs against the cost of moving a table. */
module StealCost {
  import opened Collections
  import opened Schedule

  function Max(a: real, b: real): real { if a >= b then a else b }

  /** What one task adds to the estimated remaining time. */
  function Cost(size: nat, time: real, average: real): real
    requires average > 0.0
  {
    Max(1.0, size as real * time / average)
  }

  function MoveCost(size: nat, time: real, average: real): real
    requires average > 0.0
  {
    Max(1.0, 2.0 * (size as real) * time / average)
  }

  // ---------------------------------------------------------------- in numbers

  /** The sizes of the tasks. */
  ghost function SizeOf(tasks: map<Taskid, Task>): Taskid -> real {
    id => if id in tasks then tasks[id].size as real else 0.0
  }

  /** The time of a task in units of the average size: its size times the time, but at least the
      average. */
  ghost function TimeOf(tasks: map<Taskid, Task>, time: real, average: real): Taskid -> real {
    id => if id in tasks && tasks[id].size as real * time > average then tasks[id].size as real * time else average
  }

  /** The pending tasks together take longer than twice the one to be moved, where nothing counts
      less than an average one. */
  ghost predicate Worth(tasks: map<Taskid, Task>, pending: set<Taskid>, id: Taskid, time: real, average: real)
    requires id in tasks
  {
    var twice := 2.0 * (tasks[id].size as real * time);
    SumOver(pending, TimeOf(tasks, time, average)) > if twice > average then twice else average
  }

  lemma Compare(a: real, x: real, y: real)
    requires a > 0.0
    ensures a * x > a * y <==> x > y
  {
    MulDistributes(a, x - y, y);
    Positive(a, x - y);
  }

  lemma Positive(a: real, d: real)
    requires a > 0.0
    ensures a * d > 0.0 <==> d > 0.0
  {
    if d <= 0.0 {
      assert a * (0.0 - d) >= 0.0;
    }
  }

  /** The floor of 1.0 is the floor of the average, times the average. */
  lemma FloorScaled(x: real, average: real)
    requires average > 0.0
    ensures average * Max(1.0, x / average) == if x > average then x else average
  {
    var q := x / average;
    assert average * q == x;
    Compare(average, q, 1.0);
  }

  lemma Product(size: real, time: real)
    ensures 2.0 * size * time == 2.0 * (size * time)
  {
  }

  lemma CostInNumbers(tasks: map<Taskid, Task>, id: Taskid, time: real, average: real)
    requires average > 0.0 && id in tasks
    ensures average * Cost(tasks[id].size, time, average) == TimeOf(tasks, time, average)(id)
    ensures average * MoveCost(tasks[id].size, time, average)
         == var twice := 2.0 * (tasks[id].size as real * time); if twice > average then twice else average
  {
    var x := tasks[id].size as real * time;
    FloorScaled(x, average);
    assert Cost(tasks[id].size, time, average) == Max(1.0, x / average);
    Product(tasks[id].size as real, time);
    FloorScaled(2.0 * x, average);
    assert MoveCost(tasks[id].size, time, average) == Max(1.0, 2.0 * x / average);
  }

  /** When no task is below the floor, the sizes decide: together more than twice the one. */
  lemma LargeTasks(tasks: map<Taskid, Task>, pending: set<Taskid>, id: Taskid, time: real, average: real)
    requires average > 0.0 && time >= 0.0 && id in pending && pending <= tasks.Keys
    requires forall p :: p in pending ==> tasks[p].size as real * time >= average
    ensures Worth(tasks, pending, id, time, average) <==>
              SumOver(pending, SizeOf(tasks)) > 2.0 * (tasks[id].size as real)
  {
    hide SumOver;
    SumScaled(pending, TimeOf(tasks, time, average), SizeOf(tasks), time);
    var size := tasks[id].size as real;
    assert time > 0.0;
    Compare(time, SumOver(pending, SizeOf(tasks)), 2.0 * size);
    Reordered(time, size);
  }

  lemma Reordered(time: real, size: real)
    ensures time * (2.0 * size) == 2.0 * (size * time)
  {
  }

  /** When no task is above the floor, their number decides. */
  lemma SmallTasks(tasks: map<Taskid, Task>, pending: set<Taskid>, id: Taskid, time: real, average: real)
    requires average > 0.0 && id in pending && pending <= tasks.Keys
    requires forall p :: p in pending ==> tasks[p].size as real * time <= average
    ensures Worth(tasks, pending, id, time, average) <==>
              |pending| > 1 && |pending| as real * average > 2.0 * (tasks[id].size as real * time)
  {
    hide SumOver;
    var ones := (p: Taskid) => 1.0;
    SumOnes(pending, ones);
    SumScaled(pending, TimeOf(tasks, time, average), ones, average);
    Compare(average, |pending| as real, 1.0);
  }

  /** An only pending task is never worth moving. */
  lemma OnlyTask(tasks: map<Taskid, Task>, id: Taskid, time: real, average: real)
    requires average > 0.0 && id in tasks && time >= 0.0
    ensures !Worth(tasks, {id}, id, time, average)
  {
    var f := TimeOf(tasks, time, average);
    SumRemove({id}, f, id);
    assert {id} - {id} == {};
    assert tasks[id].size as real * time >= 0.0;
  }

  ghost function Sized(size: nat): Task { Task(Pending, size, false) }

  /** Three tasks of size 1 are worth one theft, two are not. */
  lemma ThreeAlike(a: Taskid, b: Taskid, d: Taskid)
    requires a != b && b != d && a != d
    ensures Worth(map[a := Sized(1), b := Sized(1), d := Sized(1)], {a, b, d}, a, 1.0, 1.0)
    ensures !Worth(map[a := Sized(1), b := Sized(1)], {a, b}, a, 1.0, 1.0)
  {
    hide Worth;
    SmallTasks(map[a := Sized(1), b := Sized(1), d := Sized(1)], {a, b, d}, a, 1.0, 1.0);
    SmallTasks(map[a := Sized(1), b := Sized(1)], {a, b}, a, 1.0, 1.0);
    assert |{a, b, d}| == 3 && |{a, b}| == 2;
  }

  /** Of two tasks of sizes 3 and 2 the first is not. */
  lemma ThreeAndTwo(a: Taskid, b: Taskid)
    requires a != b
    ensures !Worth(map[a := Sized(3), b := Sized(2)], {a, b}, a, 1.0, 1.0)
  {
    hide Worth;
    var m := map[a := Sized(3), b := Sized(2)];
    LargeTasks(m, {a, b}, a, 1.0, 1.0);
    SumRemove({a, b}, SizeOf(m), a);
    assert {a, b} - {a} == {b};
    SumRemove({b}, SizeOf(m), b);
    assert {b} - {b} == {};
  }

  /** The test itself, as the source computes it. */
  method WorthMoving(tasks: map<Taskid, Task>, pending: set<Taskid>, id: Taskid, time: real, average: real)
    returns (worth: bool)
    requires id in pending && pending <= tasks.Keys && time >= 0.0 && average > 0.0
    ensures worth <==> Worth(tasks, pending, id, time, average)
  {
    hide Cost, MoveCost, TimeOf, SumOver;
    var moveCost := MoveCost(tasks[id].size, time, average);
    CostInNumbers(tasks, id, time, average);
    ghost var f := TimeOf(tasks, time, average);
    var eta := 0.0;
    var todo := pending;
    while todo != {}
      invariant todo <= pending && average * eta + SumOver(todo, f) == SumOver(pending, f)
      decreases todo
    {
      var p :| p in todo;
      SumRemove(todo, f, p);
      CostInNumbers(tasks, p, time, average);
      var cost := Cost(tasks[p].size, time, average);
      MulDistributes(average, eta, cost);
      todo := todo - {p};
      eta := eta + cost;
    }
    SumNone(f);
    Compare(average, eta, moveCost);
    worth := eta > moveCost;
  }

  lemma SumNone(f: Taskid -> real)
    ensures SumOver({}, f) == 0.0
  {
  }
}
