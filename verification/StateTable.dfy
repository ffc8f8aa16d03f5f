/** The preallocated hash table of a worker's own rows. `put` grows it only when `entries_ > size_`,
    so a new key put into a table that is exactly full overwrites another key's row, once; after
    that the count is one too high, and the table grows before it is full again. */
module StateTable {
  import opened Collections
  import opened DeltaMonoid
  import opened OpenAddressing

  datatype Fields<V, D> = Fields(f1: V, f2: V, f3: D)

  // ---------------------------------------------------------------- what a visit does

  type Kernel<!K, !V, !D> = (K, V, V, D) -> seq<(K, V)>

  /** The outputs whose keys are in the table, accumulated into their F1 one by one. */
  function Accumulated<K(==), V, D>(m: map<K, Fields<V, D>>, acc: (V, V) -> V, kv: seq<(K, V)>)
    : (r: map<K, Fields<V, D>>)
    ensures r.Keys == m.Keys
    decreases |kv|
  {
    if kv == [] then m
    else
      var (k, x) := kv[0];
      Accumulated(if k in m then m[k := m[k].(f1 := acc(m[k].f1, x))] else m, acc, kv[1..])
  }

  /** run_iter on row `k`, as far as it stays in the table: F1 folded into F2, F1 reset, and the
      outputs for this table accumulated. */
  function AfterVisit<K(==), V, D>(m: map<K, Fields<V, D>>, acc: (V, V) -> V, g: Kernel<K, V, D>, zero: V, k: K)
    : (r: map<K, Fields<V, D>>)
    requires k in m
    ensures r.Keys == m.Keys
  {
    var row := m[k];
    var value := acc(row.f2, row.f1);
    Accumulated(m[k := Fields(zero, value, row.f3)], acc, g(k, row.f1, value, row.f3))
  }

  ghost predicate AllIn<K, V, D>(ks: seq<K>, m: map<K, Fields<V, D>>) { forall i :: 0 <= i < |ks| ==> ks[i] in m }

  lemma AllInPush<K, V, D>(ks: seq<K>, k: K, m: map<K, Fields<V, D>>)
    requires AllIn(ks, m) && k in m
    ensures AllIn(ks + [k], m)
  {
  }

  /** Visits one after the other. */
  function AfterVisits<K(==), V, D>(
    m: map<K, Fields<V, D>>, acc: (V, V) -> V, g: Kernel<K, V, D>, zero: V, ks: seq<K>): (r: map<K, Fields<V, D>>)
    requires AllIn(ks, m)
    ensures r.Keys == m.Keys
    decreases |ks|
  {
    if ks == [] then m
    else AfterVisit(AfterVisits(m, acc, g, zero, ks[..|ks| - 1]), acc, g, zero, ks[|ks| - 1])
  }

  lemma {:induction false} AccumulatedStep<K, V, D>(
    m: map<K, Fields<V, D>>, m': map<K, Fields<V, D>>, acc: (V, V) -> V, kv: seq<(K, V)>, j: nat)
    requires j < |kv|
    requires m' == if kv[j].0 in m then m[kv[j].0 := m[kv[j].0].(f1 := acc(m[kv[j].0].f1, kv[j].1))] else m
    ensures Accumulated(m, acc, kv[j..]) == Accumulated(m', acc, kv[j + 1..])
  {
    assert kv[j..][1..] == kv[j + 1..];
  }

  lemma NoVisits<K, V, D>(m: map<K, Fields<V, D>>, acc: (V, V) -> V, g: Kernel<K, V, D>, zero: V)
    ensures AllIn([], m) && AfterVisits(m, acc, g, zero, []) == m
  {
  }

  lemma {:induction false} OneMoreVisit<K, V, D>(
    m: map<K, Fields<V, D>>, acc: (V, V) -> V, g: Kernel<K, V, D>, zero: V, ks: seq<K>, k: K)
    requires k in m && AllIn(ks, m)
    ensures AllIn(ks + [k], m)
    ensures AfterVisits(m, acc, g, zero, ks + [k]) == AfterVisit(AfterVisits(m, acc, g, zero, ks), acc, g, zero, k)
  {
    AllInPush(ks, k, m);
    assert (ks + [k])[..|ks|] == ks;
  }

  // ---------------------------------------------------------------- the table

  /** The same keys in the same buckets. */
  ghost predicate SameKeys<K, V>(b: seq<Bucket<K, V>>, b': seq<Bucket<K, V>>) {
    |b'| == |b| && forall i :: 0 <= i < |b| ==>
      (b'[i].Used? <==> b[i].Used?) && (b[i].Used? ==> b'[i].k == b[i].k)
  }

  class StateTable<K(==, !new), V(!new), D(!new)> {
    const hash: K -> nat
    const acc: (V, V) -> V
    var size: nat
    var buckets: seq<Bucket<K, Fields<V, D>>>
    var entries: nat

    /** The count is right or, once a row was lost or the table has grown, one too high. */
    ghost predicate Valid()
      reads this
    {
      && size == |buckets| > 0 && WellPlaced(buckets, hash)
      && UsedCount(buckets) <= entries <= UsedCount(buckets) + 1
    }

    /** The count is right. */
    ghost predicate Exact()
      reads this
    {
      Valid() && entries == UsedCount(buckets)
    }

    /** The next new key will cost a row. */
    ghost predicate Full()
      reads this
    {
      Exact() && entries == size
    }

    ghost function Map(): map<K, Fields<V, D>>
      reads this
    {
      Contents(buckets)
    }

    constructor (hash: K -> nat, acc: (V, V) -> V, size: nat)
      requires size > 0
      ensures Exact() && Map() == map[] && entries == 0
      ensures this.hash == hash && this.acc == acc && this.size == size
    {
      this.hash, this.acc, this.size := hash, acc, size;
      buckets := seq(size, _ => Free);
      entries := 0;
      new;
      AllFree(buckets);
    }

    /** Rehashes into `newSize` buckets, enough for all rows: none is lost, and the count is right
        afterwards. */
    method Resize(newSize: nat)
      requires Valid() && newSize > 0 && newSize != size && UsedCount(buckets) <= newSize
      modifies this
      ensures Exact() && Map() == old(Map()) && size == newSize && entries == |Map()|
      decreases 1
    {
      hide Full, Contents, UsedCount, WellPlaced;
      var oldBuckets := buckets;
      Spec(oldBuckets, hash);
      buckets := seq(newSize, _ => Free);
      size := newSize;
      entries := 0;
      AllFree(buckets);
      FreePlaced(buckets, hash);
      NoContents(oldBuckets);
      for i := 0 to |oldBuckets|
        invariant Exact() && size == newSize && Map() == Contents(oldBuckets[..i])
      {
        RehashStep(oldBuckets, i);
        if oldBuckets[i].Used? {
          Spec(buckets, hash);
          PutNew(oldBuckets[i].k, oldBuckets[i].v);
        }
      }
      assert oldBuckets[..|oldBuckets|] == oldBuckets;
      Spec(buckets, hash);
    }

    /** `put` below capacity, as the rehashing loop uses it. */
    method PutNew(k: K, v: Fields<V, D>)
      requires Exact() && k !in Map() && entries < size
      modifies this
      ensures Exact() && Map() == old(Map())[k := v] && size == old(size)
      decreases 0, 1
    {
      Put(k, v);
    }

    /** `put` is a map update exactly when the key is present or the table is not full by a right
        count. Otherwise some other key's row is lost, and the count is too high from then on, so
        this happens once in the life of a table. */
    method Put(k: K, v: Fields<V, D>)
      requires Valid()
      modifies this
      ensures Valid() && k in Map() && Map()[k] == v
      ensures Map() == old(Map())[k := v] <==> (k in old(Map()) || !old(Full()))
      ensures k !in old(Map()) && old(Full()) ==>
                exists lost :: lost in old(Map()) && lost != k && Map() == (old(Map()) - {lost})[k := v]
      ensures Exact() <==> old(Exact()) && (k in old(Map()) || !old(Full()))
      ensures old(entries) <= old(size) ==>
                size == old(size) && entries == old(entries) + (if k in old(Map()) then 0 else 1)
      ensures size == if k !in old(Map()) && old(entries) > old(size) then 2 * old(size) + 1 else old(size)
      decreases if entries > size then 2 else 0, 0
    {
      hide Contents, UsedCount, WellPlaced, Reachable;
      Spec(buckets, hash);
      var i, found := ProbeForPut(buckets, hash, k);
      if !found && entries > size {
        Resize(1 + size * 2);
        ghost var grown := buckets;
        Put(k, v);
        Spec(grown, hash);
        Spec(buckets, hash);
        entries := entries + 1;
      } else {
        PutWrites(buckets, hash, i, found, k, v);
        buckets := buckets[i := Used(k, v)];
        if !found {
          entries := entries + 1;
        }
      }
    }

    method AccumulateF1(k: K, x: V)
      requires Valid() && k in Map()
      modifies this`buckets
      ensures Valid() && Map() == old(Map())[k := old(Map())[k].(f1 := acc(old(Map())[k].f1, x))]
      ensures SameKeys(old(buckets), buckets)
    {
      ContentsSpec(buckets);
      var i := BucketForKey(buckets, hash, k);
      var v := buckets[i].v;
      Write(i, k, v.(f1 := acc(v.f1, x)));
    }

    method AccumulateF2(k: K, x: V)
      requires Valid() && k in Map()
      modifies this`buckets
      ensures Valid() && Map() == old(Map())[k := old(Map())[k].(f2 := acc(old(Map())[k].f2, x))]
      ensures SameKeys(old(buckets), buckets)
    {
      ContentsSpec(buckets);
      var i := BucketForKey(buckets, hash, k);
      var v := buckets[i].v;
      Write(i, k, v.(f2 := acc(v.f2, x)));
    }

    method UpdateF1(k: K, x: V)
      requires Valid() && k in Map()
      modifies this`buckets
      ensures Valid() && Map() == old(Map())[k := old(Map())[k].(f1 := x)]
      ensures SameKeys(old(buckets), buckets)
    {
      ContentsSpec(buckets);
      var i := BucketForKey(buckets, hash, k);
      Write(i, k, buckets[i].v.(f1 := x));
    }

    method Write(i: nat, k: K, v: Fields<V, D>)
      requires Valid() && i < size && buckets[i].Used? && buckets[i].k == k
      modifies this`buckets
      ensures Valid() && Map() == old(Map())[k := v]
      ensures SameKeys(old(buckets), buckets)
    {
      hide Contents, UsedCount, WellPlaced, Reachable;
      Spec(buckets, hash);
      Overwrites(buckets, hash, i, k, v);
      buckets := buckets[i := Used(k, v)];
    }

    /** accumulateF1 of one output, if its key is in this table. */
    method AccumulateLocal(k: K, x: V)
      requires Valid()
      modifies this`buckets
      ensures Valid() && SameKeys(old(buckets), buckets)
      ensures Map() == if k in old(Map()) then old(Map())[k := old(Map())[k].(f1 := acc(old(Map())[k].f1, x))]
                       else old(Map())
    {
      hide SameKeys, Contents, UsedCount, WellPlaced;
      Spec(buckets, hash);
      var at := BucketForKey(buckets, hash, k);
      if at != -1 {
        AccumulateF1(k, x);
      } else {
        SameKeysSelf(buckets);
      }
    }

    /** What visiting a row does to this table: run_iter on it, as far as it stays in this shard. */
    method VisitRow(k: K, g: Kernel<K, V, D>, zero: V)
      requires Valid() && k in Map()
      modifies this`buckets
      ensures Valid() && SameKeys(old(buckets), buckets)
      ensures Map() == AfterVisit(old(Map()), acc, g, zero, k)
    {
      hide SameKeys, Contents, UsedCount, WellPlaced;
      ghost var b0 := buckets;
      Spec(b0, hash);
      var i := BucketForKey(buckets, hash, k);
      var row := buckets[i].v;
      AccumulateF2(k, row.f1);
      ghost var b1 := buckets;
      UpdateF1(k, zero);
      SameKeysTrans(b0, b1, buckets);
      assert Map() == old(Map())[k := Fields(zero, acc(row.f2, row.f1), row.f3)];
      ghost var b2 := buckets;
      AccumulateAll(g(k, row.f1, acc(row.f2, row.f1), row.f3));
      SameKeysTrans(b0, b2, buckets);
    }

    /** The sending loop of run_iter, as far as it stays in this table. */
    method AccumulateAll(output: seq<(K, V)>)
      requires Valid()
      modifies this`buckets
      ensures Valid() && SameKeys(old(buckets), buckets)
      ensures Map() == Accumulated(old(Map()), acc, output)
    {
      hide SameKeys, Contents, UsedCount, WellPlaced;
      ghost var b0, goal := buckets, Accumulated(Map(), acc, output);
      SameKeysSelf(b0);
      assert output[0..] == output;
      for j := 0 to |output|
        invariant Valid() && SameKeys(b0, buckets)
        invariant Accumulated(Map(), acc, output[j..]) == goal
      {
        ghost var b1, m := buckets, Map();
        AccumulateLocal(output[j].0, output[j].1);
        AccumulatedStep(m, Map(), acc, output, j);
        SameKeysTrans(b0, b1, buckets);
      }
    }

    /** The scan of run_loop, `while (!done()) { if (!Next()) break; run_iter(...) }`: although the
        visits change the rows, each key is visited exactly once, and what the table holds in the
        end is what those visits make of it. */
    method VisitAll(g: Kernel<K, V, D>, zero: V) returns (visited: seq<K>)
      requires Valid()
      modifies this`buckets
      ensures Valid()
      ensures NoDup(visited) && forall k :: k in visited <==> k in old(Map())
      ensures AllIn(visited, old(Map())) && Map() == AfterVisits(old(Map()), acc, g, zero, visited)
    {
      hide SameKeys, Contents, UsedCount, WellPlaced, Scanned, AfterVisit, AfterVisits, AllIn;
      ghost var b, m := buckets, Map();
      NoVisits(m, acc, g, zero);
      SameKeysSelf(b);
      NothingScanned(b);
      visited := [];
      var pos := -1;
      while pos + 1 != size
        invariant Valid() && SameKeys(b, buckets)
        invariant -1 <= pos < size && Scanned(b, pos + 1, visited)
        invariant AllIn(visited, m) && Map() == AfterVisits(m, acc, g, zero, visited)
        decreases size - pos
      {
        var more, from := false, pos;
        pos, more := Next(pos);
        Spec(b, hash);
        Spec(buckets, hash);
        SameAsNow(b, buckets, from + 1, pos);
        ScanOn(b, from + 1, pos, visited);
        if !more {
          break;
        }
        var k := buckets[pos].k;
        OneMoreVisit(m, acc, g, zero, visited, k);
        ghost var b1 := buckets;
        VisitRow(k, g, zero);
        visited := visited + [k];
        SameKeysTrans(b, b1, buckets);
      }
      Spec(b, hash);
      AllScanned(b, visited);
    }

    method Next(from: int) returns (pos: int, more: bool)
      requires Valid() && -1 <= from < size - 1
      ensures from < pos <= size && (more <==> pos < size) && (more ==> buckets[pos].Used?)
      ensures forall i :: from < i < pos ==> buckets[i].Free?
    {
      pos := from + 1;
      while pos < size && !buckets[pos].Used?
        invariant from < pos <= size
        invariant forall i :: from < i < pos ==> buckets[i].Free?
      {
        pos := pos + 1;
      }
      more := pos < size;
    }
  }

  lemma SameKeysTrans<K, V>(a: seq<Bucket<K, V>>, b: seq<Bucket<K, V>>, c: seq<Bucket<K, V>>)
    requires SameKeys(a, b) && SameKeys(b, c)
    ensures SameKeys(a, c)
  {
  }

  lemma SameKeysSelf<K, V>(a: seq<Bucket<K, V>>)
    ensures SameKeys(a, a)
  {
  }

  ghost predicate StoredBelow<K, V>(b: seq<Bucket<K, V>>, pos: nat, k: K) {
    exists i :: 0 <= i < pos && i < |b| && b[i].Used? && b[i].k == k
  }

  /** `visited` are the keys of the used buckets below `pos`, each once. */
  ghost predicate Scanned<K, V>(b: seq<Bucket<K, V>>, pos: nat, visited: seq<K>) {
    && pos <= |b| && NoDup(visited)
    && (forall i :: 0 <= i < pos && b[i].Used? ==> b[i].k in visited)
    && (forall j :: 0 <= j < |visited| ==> StoredBelow(b, pos, visited[j]))
  }

  /** Skipping free buckets, and then taking the next used one. */
  lemma ScanOn<K, V>(b: seq<Bucket<K, V>>, from: nat, pos: nat, visited: seq<K>)
    requires Distinct(b) && Scanned(b, from, visited) && from <= pos <= |b|
    requires forall i :: from <= i < pos ==> b[i].Free?
    ensures Scanned(b, pos, visited)
    ensures pos < |b| && b[pos].Used? ==> Scanned(b, pos + 1, visited + [b[pos].k])
  {
    forall k | StoredBelow(b, from, k)
      ensures StoredBelow(b, pos, k) && StoredBelow(b, pos + 1, k)
      ensures pos < |b| && b[pos].Used? ==> k != b[pos].k
    {
      var i :| 0 <= i < from && i < |b| && b[i].Used? && b[i].k == k;
    }
    if pos < |b| && b[pos].Used? {
      assert StoredBelow(b, pos + 1, b[pos].k);
    }
  }

  lemma NothingScanned<K, V>(b: seq<Bucket<K, V>>)
    ensures Scanned(b, 0, [])
  {
  }

  lemma AllScanned<K, V>(b: seq<Bucket<K, V>>, visited: seq<K>)
    requires Scanned(b, |b|, visited)
    ensures NoDup(visited) && forall k :: k in visited <==> Stores(b, k)
  {
    forall k | k in visited
      ensures Stores(b, k)
    {
      var j :| 0 <= j < |visited| && visited[j] == k;
      assert StoredBelow(b, |b|, visited[j]);
    }
  }

  lemma SameAsNow<K, V>(b: seq<Bucket<K, V>>, now: seq<Bucket<K, V>>, from: nat, pos: nat)
    requires SameKeys(b, now) && from <= pos <= |b|
    ensures |now| == |b|
    ensures (forall i :: from <= i < pos ==> now[i].Free?) ==> forall i :: from <= i < pos ==> b[i].Free?
    ensures pos < |b| ==> (now[pos].Used? <==> b[pos].Used?) && (b[pos].Used? ==> now[pos].k == b[pos].k)
  {
  }

  lemma FreePlaced<K, V>(b: seq<Bucket<K, V>>, hash: K -> nat)
    requires forall i :: 0 <= i < |b| ==> b[i].Free?
    ensures WellPlaced(b, hash)
  {
  }

  lemma NoContents<K, V>(b: seq<Bucket<K, V>>)
    ensures Contents(b[..0]) == map[]
  {
  }

  /** One bucket more: nothing new, or a key that was not there before, and room for it. */
  lemma RehashStep<K(!new), V(!new)>(b: seq<Bucket<K, V>>, i: nat)
    requires Distinct(b) && i < |b|
    ensures b[i].Free? ==> Contents(b[..i + 1]) == Contents(b[..i])
    ensures b[i].Used? ==>
              && Contents(b[..i + 1]) == Contents(b[..i])[b[i].k := b[i].v]
              && b[i].k !in Contents(b[..i]) && |Contents(b[..i])| < UsedCount(b)
  {
    assert b[..i + 1][..i] == b[..i];
    if b[i].Used? {
      FewerBefore(b, i);
      ContentsSpec(b[..i]);
    }
  }

  /** The map of a well-placed vector. */
  lemma Spec<K(!new), V(!new)>(b: seq<Bucket<K, V>>, hash: K -> nat)
    requires WellPlaced(b, hash)
    ensures Distinct(b) && |Contents(b)| == UsedCount(b) <= |b|
    ensures forall k :: k in Contents(b) <==> Stores(b, k)
    ensures forall i :: 0 <= i < |b| && b[i].Used? ==> b[i].k in Contents(b) && Contents(b)[b[i].k] == b[i].v
  {
    ContentsSpec(b);
  }

  lemma Overwrites<K(!new), V(!new)>(b: seq<Bucket<K, V>>, hash: K -> nat, i: nat, k: K, v: V)
    requires WellPlaced(b, hash) && i < |b| && b[i].Used? && b[i].k == k
    ensures var b' := b[i := Used(k, v)];
            && WellPlaced(b', hash) && Contents(b') == Contents(b)[k := v]
            && UsedCount(b') == UsedCount(b) && SameKeys(b, b')
  {
    Spec(b, hash);
    WriteBucket(b, hash, i, k, v);
    Spec(b[i := Used(k, v)], hash);
  }

  /** What writing the row where the probe stopped does: a map update, unless every bucket was
      used by another key. */
  lemma PutWrites<K(!new), V(!new)>(b: seq<Bucket<K, V>>, hash: K -> nat, i: nat, found: bool, k: K, v: V)
    requires WellPlaced(b, hash) && i < |b| && (found <==> Stores(b, k))
    requires found ==> b[i].Used? && b[i].k == k
    requires !found && UsedCount(b) < |b| ==> b[i].Free? && Reachable(b, Home(hash, |b|, k), i)
    requires !found && UsedCount(b) == |b| ==> i == Home(hash, |b|, k) && b[i].Used?
    ensures var b' := b[i := Used(k, v)];
            && WellPlaced(b', hash) && k in Contents(b') && Contents(b')[k] == v
            && UsedCount(b') == UsedCount(b) + (if found || UsedCount(b) == |b| then 0 else 1)
            && (Contents(b') == Contents(b)[k := v] <==> found || UsedCount(b) < |b|)
            && (!found && UsedCount(b) == |b| ==>
                  exists lost :: lost in Contents(b) && lost != k && Contents(b') == (Contents(b) - {lost})[k := v])
  {
    hide Contents, UsedCount, WellPlaced, Reachable;
    Spec(b, hash);
    if found {
      Overwrites(b, hash, i, k, v);
    } else if UsedCount(b) < |b| {
      WriteBucket(b, hash, i, k, v);
      Spec(b[i := Used(k, v)], hash);
    } else {
      OverwriteBucket(b, hash, i, k, v);
      Spec(b[i := Used(k, v)], hash);
      var lost := b[i].k;
      assert |Contents(b) - {lost}| == |Contents(b)| - 1 by {
        assert Contents(b) == (Contents(b) - {lost})[lost := Contents(b)[lost]];
      }
    }
  }

  lemma OverwritePlaced<K(!new), V(!new)>(b: seq<Bucket<K, V>>, hash: K -> nat, i: nat, k: K, v: V)
    requires 0 < |b| && i == Home(hash, |b|, k) && WellPlaced(b, hash) && b[i].Used? && !Stores(b, k)
    ensures WellPlaced(b[i := Used(k, v)], hash)
  {
    var b' := b[i := Used(k, v)];
    assert forall j :: 0 <= j < |b| && b[j].Used? ==> Stores(b, b[j].k);
    forall j | 0 <= j < |b'| && b'[j].Used?
      ensures Reachable(b', Home(hash, |b'|, b'[j].k), j)
    {
      if j != i {
        assert Reachable(b, Home(hash, |b|, b[j].k), j);
      }
    }
  }

  /** Overwriting a used bucket with an absent key at its home bucket drops one row. */
  lemma OverwriteBucket<K(!new), V(!new)>(b: seq<Bucket<K, V>>, hash: K -> nat, i: nat, k: K, v: V)
    requires 0 < |b| && i == Home(hash, |b|, k) && WellPlaced(b, hash) && b[i].Used? && !Stores(b, k)
    ensures WellPlaced(b[i := Used(k, v)], hash)
    ensures k in Contents(b[i := Used(k, v)]) && Contents(b[i := Used(k, v)])[k] == v
    ensures b[i].k in Contents(b) && b[i].k != k
    ensures Contents(b[i := Used(k, v)]) == (Contents(b) - {b[i].k})[k := v] != Contents(b)[k := v]
  {
    var b', lost := b[i := Used(k, v)], b[i].k;
    OverwritePlaced(b, hash, i, k, v);
    forall x
      ensures Stores(b', x) <==> x == k || (Stores(b, x) && x != lost)
    {
      OverwriteStores(b, i, k, v, x);
    }
    Spec(b, hash);
    Spec(b', hash);
    hide Contents, UsedCount, WellPlaced;
    assert Stores(b, lost) && b'[i].k == k;
    assert k in Contents(b') && k !in Contents(b) && lost != k;
    forall x | x in Contents(b') && x != k
      ensures x in Contents(b) && Contents(b')[x] == Contents(b)[x]
    {
      var j :| 0 <= j < |b'| && b'[j].Used? && b'[j].k == x;
      assert b[j] == b'[j];
    }
    assert Contents(b') == (Contents(b) - {lost})[k := v];
    assert lost in Contents(b)[k := v] && lost !in Contents(b');
  }

  lemma OverwriteStores<K(!new), V(!new)>(b: seq<Bucket<K, V>>, i: nat, k: K, v: V, x: K)
    requires Distinct(b) && i < |b| && b[i].Used? && !Stores(b, k)
    ensures Stores(b[i := Used(k, v)], x) <==> x == k || (Stores(b, x) && x != b[i].k)
  {
    var b' := b[i := Used(k, v)];
    if Stores(b', x) && x != k {
      var j :| 0 <= j < |b'| && b'[j].Used? && b'[j].k == x;
      assert b[j] == b'[j] && j != i;
    }
    if Stores(b, x) && x != b[i].k {
      var j :| 0 <= j < |b| && b[j].Used? && b[j].k == x;
      assert b'[j] == b[j];
    }
    assert b'[i].k == k;
  }

  // ---------------------------------------------------------------- preallocation

  /** The keys of shard `s` among the first `n` vertices, under Sharding::Mod. */
  ghost function ShardKeys(n: nat, shards: nat, s: nat): set<Key>
    requires shards > 0
  {
    set k: Key | 0 <= k < n && k % shards == s
  }

  ghost function UpTo(n: nat): (r: set<nat>)
    ensures forall i: nat :: i in r <==> i <= n
    ensures |r| == n + 1
  {
    if n == 0 then {0} else UpTo(n - 1) + {n}
  }

  lemma {:induction false} InjectiveImage(xs: set<Key>, ys: set<nat>, f: Key -> nat)
    requires forall x :: x in xs ==> f(x) in ys
    requires forall x, x' :: x in xs && x' in xs && f(x) == f(x') ==> x == x'
    ensures |xs| <= |ys|
    decreases xs
  {
    if xs != {} {
      var x :| x in xs;
      InjectiveImage(xs - {x}, ys - {f(x)}, f);
    }
  }

  /** A shard preallocated with n / shards + 1 buckets has one for every key it may get. */
  lemma ShardFits(n: nat, shards: nat, s: nat)
    requires shards > 0 && s < shards
    ensures |ShardKeys(n, shards, s)| <= n / shards + 1
  {
    var quotient := (k: Key) => Quotient(k, shards);
    forall k | k in ShardKeys(n, shards, s)
      ensures quotient(k) in UpTo(n / shards)
    {
      QuotientMonotone(k, n, shards);
    }
    forall k, l | k in ShardKeys(n, shards, s) && l in ShardKeys(n, shards, s) && quotient(k) == quotient(l)
      ensures k == l
    {
      SameQuotient(k, l, shards);
    }
    InjectiveImage(ShardKeys(n, shards, s), UpTo(n / shards), quotient);
  }

  function Quotient(a: nat, m: nat): nat { if m == 0 then 0 else a / m }

  lemma DivMod(a: nat, m: nat)
    requires m > 0
    ensures a == m * (a / m) + a % m
  {
  }

  lemma SameQuotient(a: nat, b: nat, m: nat)
    requires m > 0 && a % m == b % m && Quotient(a, m) == Quotient(b, m)
    ensures a == b
  {
    DivMod(a, m);
    DivMod(b, m);
  }

  lemma QuotientMonotone(a: nat, b: nat, m: nat)
    requires m > 0 && a <= b
    ensures Quotient(a, m) <= b / m
  {
    DivMod(a, m);
    DivMod(b, m);
    if Quotient(a, m) > b / m {
      MulGap(m, b / m, a / m);
    }
  }

  /** The rows of shard `s` among those of the listed keys. */
  ghost function ShardRows<R>(keys: seq<Key>, init: Key -> R, shards: nat, s: nat): map<Key, R>
    requires shards > 0
  {
    map k | k in keys && k % shards == s :: init(k)
  }

  /** MaiterKernel1::read_file at the worker of shard `s`: every key of the input is offered, in
      any order and with repetitions, those of other shards are skipped, and no row is lost. */
  method LoadShard<V(!new), D(!new)>(
    t: StateTable<Key, V, D>, keys: seq<Key>, init: Key -> Fields<V, D>, n: nat, shards: nat, s: nat)
    requires shards > 0 && s < shards && forall i :: 0 <= i < |keys| ==> keys[i] < n
    requires t.Exact() && t.Map() == map[] && t.size == n / shards + 1
    modifies t
    ensures t.Exact() && t.size == old(t.size)
    ensures t.Map() == ShardRows(keys, init, shards, s)
  {
    hide Contents, WellPlaced, UsedCount;
    assert ShardRows(keys[..0], init, shards, s) == map[];
    for i := 0 to |keys|
      invariant t.Exact() && t.size == old(t.size)
      invariant t.Map() == ShardRows(keys[..i], init, shards, s)
    {
      OneMoreRow(keys, init, shards, s, i);
      if keys[i] % shards == s {
        Spec(t.buckets, t.hash);
        SizeBelow(t.buckets, t.Map(), keys, i, init, n, shards, s);
        t.Put(keys[i], init(keys[i]));
      }
    }
    assert keys[..|keys|] == keys;
  }

  lemma OneMoreRow<R>(keys: seq<Key>, init: Key -> R, shards: nat, s: nat, i: nat)
    requires shards > 0 && i < |keys|
    ensures ShardRows(keys[..i + 1], init, shards, s) ==
              var m := ShardRows(keys[..i], init, shards, s);
              if keys[i] % shards == s then m[keys[i] := init(keys[i])] else m
  {
    assert keys[..i + 1] == keys[..i] + [keys[i]];
  }

  /** Before the next new key goes in, the table holds fewer keys than the shard has. */
  lemma SizeBelow<V(!new), D(!new)>(b: seq<Bucket<Key, Fields<V, D>>>, m: map<Key, Fields<V, D>>,
    keys: seq<Key>, i: nat, init: Key -> Fields<V, D>, n: nat, shards: nat, s: nat)
    requires shards > 0 && s < shards && i < |keys| && keys[i] % shards == s
    requires forall j :: 0 <= j < |keys| ==> keys[j] < n
    requires Distinct(b) && m == Contents(b) && m == ShardRows(keys[..i], init, shards, s)
    ensures keys[i] in m || UsedCount(b) < n / shards + 1
  {
    hide Contents, UsedCount;
    ContentsSpec(b);
    ShardFits(n, shards, s);
    var all := ShardKeys(n, shards, s);
    assert m.Keys <= all;
    assert keys[i] in all;
    if keys[i] !in m {
      SubsetSize(m.Keys, all - {keys[i]});
    }
  }

  /** Whatever is put into a table of any size, at most one of the keys is missing in the end. */
  method PutAll<K(==, !new), V(!new), D(!new)>(t: StateTable<K, V, D>, rows: seq<(K, Fields<V, D>)>)
    requires t.Exact() && t.Map() == map[]
    modifies t
    ensures t.Valid()
    ensures forall i, j :: 0 <= i < |rows| && 0 <= j < |rows| && rows[i].0 !in t.Map() && rows[j].0 !in t.Map() ==>
              rows[i].0 == rows[j].0
  {
    hide Contents, WellPlaced, UsedCount;
    for r := 0 to |rows|
      invariant t.Valid()
      invariant t.Exact() ==> forall i :: 0 <= i < r ==> rows[i].0 in t.Map()
      invariant forall i, j :: 0 <= i < r && 0 <= j < r && rows[i].0 !in t.Map() && rows[j].0 !in t.Map() ==>
                  rows[i].0 == rows[j].0
    {
      t.Put(rows[r].0, rows[r].1);
    }
  }
}
