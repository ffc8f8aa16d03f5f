/** How evenly assign_tables spreads the shards: the least loaded worker always gets the next shard
    number, so the alive workers' numbers of shard numbers never differ by more than one. */
module Balance {
  import opened Collections
  import opened Schedule

  /** All tables have equally many shards. */
  ghost predicate EqualTables(c: Config) {
    forall t, u :: t in c.tables && u in c.tables ==> c.tables[t] == c.tables[u]
  }

  /** The shard numbers that live on worker `w`. */
  ghost function NumbersOf(home: map<nat, nat>, w: nat): set<nat> { set j | j in home && home[j] == w }

  ghost function Load(home: map<nat, nat>, w: nat): nat { |NumbersOf(home, w)| }

  /** Each worker serves all tables' shards of its numbers; alive ones differ by at most one
      number, and dead ones have none. */
  ghost predicate Even(c: Config, s: State) {
    && Shaped(c, s)
    && (forall w: nat :: w < |c.alive| ==> |s.shards[w]| == |c.tables| * Load(s.home, w))
    && (forall v: nat, w: nat :: v < |c.alive| && w < |c.alive| && c.alive[v] && c.alive[w] ==>
          Load(s.home, v) <= Load(s.home, w) + 1)
    && (forall w: nat :: w < |c.alive| && !c.alive[w] ==> Load(s.home, w) == 0)
  }

  lemma EvenStart(c: Config, s: State)
    requires Served(c, s) && s.home == map[]
    ensures Even(c, s)
  {
    forall w: nat | w < |c.alive|
      ensures |s.shards[w]| == 0 && Load(s.home, w) == 0
    {
      assert forall id :: id in s.shards[w] ==> id.shard in s.home;
      assert s.shards[w] == {};
      assert NumbersOf(s.home, w) == {};
    }
  }

  lemma {:induction false} TablesSize(ts: set<nat>, shard: nat)
    ensures |set t | t in ts :: Taskid(t, shard)| == |ts|
    decreases ts
  {
    var all := set t | t in ts :: Taskid(t, shard);
    if ts == {} {
      assert all == {};
    } else {
      var t :| t in ts;
      TablesSize(ts - {t}, shard);
      var rest := set u | u in ts - {t} :: Taskid(u, shard);
      assert all == rest + {Taskid(t, shard)};
    }
  }

  /** With equally many shards everywhere, a number has a shard in every table. */
  lemma ColumnSize(c: Config, shard: nat, table: nat)
    requires EqualTables(c) && Known(c, Taskid(table, shard))
    ensures |Column(c, shard)| == |c.tables|
  {
    TablesSize(c.tables.Keys, shard);
    assert Column(c, shard) == set t | t in c.tables.Keys :: Taskid(t, shard);
    assert |c.tables| == |c.tables.Keys|;
  }

  lemma LoadAfter(home: map<nat, nat>, shard: nat, w: nat, v: nat)
    requires shard !in home
    ensures Load(home[shard := w], v) == Load(home, v) + (if v == w then 1 else 0)
  {
    var home', before := home[shard := w], NumbersOf(home, v);
    forall j
      ensures j in NumbersOf(home', v) <==> j in before || (j == shard && v == w)
    {
    }
    assert shard !in before;
    assert NumbersOf(home', v) == if v == w then before + {shard} else before;
  }

  lemma MulCancel(t: nat, a: nat, b: nat)
    requires t > 0 && t * a <= t * b
    ensures a <= b
  {
    if a > b {
      MulGap(t, b, a);
    }
  }

  /** The worker now serving `shard` too, after it was the least loaded alive one. */
  ghost function ServeAt(c: Config, s: State, w: nat, shard: nat): State
    requires Shaped(c, s) && w < |c.alive|
  {
    s.(shards := s.shards[w := s.shards[w] + Column(c, shard)], home := s.home[shard := w])
  }

  ghost predicate LeastAt(c: Config, s: State, w: nat) {
    && Shaped(c, s) && w < |c.alive| && c.alive[w]
    && forall i: nat :: i < |c.alive| && c.alive[i] ==> |s.shards[w]| <= |s.shards[i]|
  }

  lemma EvenStep(c: Config, s: State, w: nat, table: nat, shard: nat)
    requires Even(c, s) && Served(c, s) && EqualTables(c) && Known(c, Taskid(table, shard)) && shard !in s.home
    requires LeastAt(c, s, w)
    ensures Even(c, ServeAt(c, s, w, shard))
  {
    var s' := ServeAt(c, s, w, shard);
    hide Served, Known, Column, Load, EqualTables, LeastAt;
    forall v: nat | v < |c.alive|
      ensures Load(s'.home, v) == Load(s.home, v) + (if v == w then 1 else 0)
      ensures |s'.shards[v]| == |c.tables| * Load(s'.home, v)
      ensures c.alive[v] ==> Load(s.home, w) <= Load(s.home, v)
    {
      EvenAt(c, s, w, table, shard, v);
    }
  }

  /** The part of one worker in that step. */
  lemma EvenAt(c: Config, s: State, w: nat, table: nat, shard: nat, v: nat)
    requires Even(c, s) && Served(c, s) && EqualTables(c) && Known(c, Taskid(table, shard)) && shard !in s.home
    requires LeastAt(c, s, w) && v < |c.alive|
    ensures var s' := ServeAt(c, s, w, shard);
            && Load(s'.home, v) == Load(s.home, v) + (if v == w then 1 else 0)
            && |s'.shards[v]| == |c.tables| * Load(s'.home, v)
            && (c.alive[v] ==> Load(s.home, w) <= Load(s.home, v))
  {
    NewColumn(c, s, w, table, shard);
    hide Served, Known, Column, Load, EqualTables;
    LoadAfter(s.home, shard, w, v);
    OneMore(|c.tables|, Load(s.home, w));
    if c.alive[v] {
      MulCancel(|c.tables|, Load(s.home, w), Load(s.home, v));
    }
  }

  lemma NewColumn(c: Config, s: State, w: nat, table: nat, shard: nat)
    requires Served(c, s) && EqualTables(c) && Known(c, Taskid(table, shard)) && shard !in s.home && w < |c.alive|
    ensures |s.shards[w] + Column(c, shard)| == |s.shards[w]| + |c.tables| && |c.tables| > 0
  {
    ColumnSize(c, shard, table);
    assert s.shards[w] !! Column(c, shard);
    assert |c.tables| == |c.tables.Keys| && table in c.tables.Keys;
  }

  lemma OneMore(t: nat, l: nat)
    ensures t * (l + 1) == t * l + t
  {
  }

  // ---------------------------------------------------------------- how many each gets

  function AliveCount(alive: seq<bool>): nat {
    if alive == [] then 0 else AliveCount(alive[..|alive| - 1]) + if alive[|alive| - 1] then 1 else 0
  }

  /** The shard numbers that live on workers below `n`. */
  ghost function Below(home: map<nat, nat>, n: nat): set<nat> { set j | j in home && home[j] < n }

  lemma BelowNext(home: map<nat, nat>, n: nat)
    ensures |Below(home, n + 1)| == |Below(home, n)| + Load(home, n)
  {
    assert Below(home, n + 1) == Below(home, n) + NumbersOf(home, n);
    assert Below(home, n) !! NumbersOf(home, n);
  }

  /** a * l, one addition at a time. */
  ghost function Times(a: nat, l: nat): nat { if a == 0 then 0 else Times(a - 1, l) + l }

  lemma {:induction false} TimesIsProduct(a: nat, l: nat)
    ensures Times(a, l) == a * l
  {
    if a > 0 {
      TimesIsProduct(a - 1, l);
    }
  }

  /** Among the first `n` workers, against the load of alive worker `w`. */
  lemma {:induction false} Bounds(c: Config, s: State, w: nat, n: nat)
    requires Even(c, s) && w < |c.alive| && c.alive[w] && n <= |c.alive|
    ensures var l, a := Load(s.home, w), AliveCount(c.alive[..n]);
            && |Below(s.home, n)| + (if w < n then 1 else 0) <= Times(a, l + 1)
            && Times(a, l) + (if w < n then 1 else 0) <= |Below(s.home, n)| + a
    decreases n
  {
    hide Load, Even, Below;
    if n == 0 {
      NoneBelow(s.home);
    } else {
      Bounds(c, s, w, n - 1);
      BelowNext(s.home, n - 1);
      EvenPair(c, s, w, n - 1);
      assert c.alive[..n][..n - 1] == c.alive[..n - 1];
    }
  }

  lemma NoneBelow(home: map<nat, nat>)
    ensures |Below(home, 0)| == 0
  {
    assert Below(home, 0) == {};
  }

  /** Two loads of an even state. */
  lemma EvenPair(c: Config, s: State, w: nat, v: nat)
    requires Even(c, s) && w < |c.alive| && c.alive[w] && v < |c.alive|
    ensures if c.alive[v] then Load(s.home, v) <= Load(s.home, w) + 1 && Load(s.home, w) <= Load(s.home, v) + 1
            else Load(s.home, v) == 0
  {
    hide Load;
  }

  /** Every alive worker gets the average number of shard numbers, rounded up or down; in
      particular exactly one of n on n alive workers. */
  lemma EvenShare(c: Config, s: State, w: nat)
    requires Even(c, s) && w < |c.alive| && c.alive[w] && forall j :: j in s.home ==> s.home[j] < |c.alive|
    ensures var l, a := Load(s.home, w), AliveCount(c.alive);
            && |s.home| < a * (l + 1) && a * l < |s.home| + a
            && (|s.home| == a ==> l == 1)
  {
    Bounds(c, s, w, |c.alive|);
    assert c.alive[..|c.alive|] == c.alive;
    assert Below(s.home, |c.alive|) == s.home.Keys;
    assert |s.home| == |s.home.Keys|;
    var l, a := Load(s.home, w), AliveCount(c.alive);
    TimesIsProduct(a, l);
    TimesIsProduct(a, l + 1);
    if |s.home| == a {
      OnlyOne(a, l);
    }
  }

  lemma OnlyOne(a: nat, l: nat)
    requires a < a * (l + 1) && a * l < a + a
    ensures l == 1
  {
    if l >= 2 {
      TimesIsProduct(a, 2);
      if l > 2 {
        MulGap(a, 2, l);
      }
    }
  }

  /** Only numbers of existing shards are served. */
  ghost predicate OnlyKnown(c: Config, s: State) {
    forall j :: j in s.home ==> exists t :: Known(c, Taskid(t, j))
  }

  ghost function UpTo(n: nat): (r: set<nat>)
    ensures |r| == n && forall j: nat :: j in r <==> j < n
  {
    if n == 0 then {} else UpTo(n - 1) + {n - 1}
  }

  lemma OnlyKnownStart(c: Config, s: State)
    requires s.home == map[]
    ensures OnlyKnown(c, s)
  {
  }

  lemma OnlyKnownStep(c: Config, s: State, s': State, table: nat, shard: nat)
    requires OnlyKnown(c, s) && Known(c, Taskid(table, shard)) && s'.home.Keys == s.home.Keys + {shard}
    ensures OnlyKnown(c, s')
  {
  }

  /** The loads depend on these components only. */
  lemma EvenSame(c: Config, s: State, s': State)
    requires Even(c, s) && Shaped(c, s') && s'.shards == s.shards && s'.home == s.home
    ensures Even(c, s')
  {
  }

  lemma KnownTable(c: Config)
    ensures forall id :: Known(c, id) ==> id.table in c.tables
  {
  }

  lemma KnownBelow(c: Config)
    ensures forall id :: Known(c, id) ==> id.shard < c.tables[id.table]
  {
  }

  /** One shard for each alive worker, as registerMaiter asks for: each serves exactly one. */
  lemma OneEach(c: Config, s: State, table: nat, w: nat)
    requires AllServed(c, s) && Even(c, s) && OnlyKnown(c, s) && EqualTables(c)
    requires table in c.tables && c.tables[table] == AliveCount(c.alive) && w < |c.alive| && c.alive[w]
    ensures Load(s.home, w) == 1
  {
    var n := c.tables[table];
    forall j: nat
      ensures j in s.home <==> j < n
    {
      if j < n {
        assert Known(c, Taskid(table, j));
      }
      if j in s.home {
        var t :| Known(c, Taskid(t, j));
      }
    }
    assert s.home.Keys == UpTo(n);
    assert |s.home| == |s.home.Keys|;
    EvenShare(c, s, w);
  }
}
