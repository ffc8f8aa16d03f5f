/** Linear probing over a bucket vector, shared by DeltaTable and StateTable: the invariant
    every operation keeps, and the finite map a bucket vector stands for. */
module OpenAddressing {
  import opened Collections
  import opened DeltaMonoid

  /** `Free` is a bucket whose `in_use` flag is off. */
  datatype Bucket<K, V> = Free | Used(k: K, v: V)

  /** The bucket `d` places after `start`, cyclically. */
  function Wrap(size: nat, start: nat, d: nat): nat
    requires start < size && d <= size
  {
    if start + d < size then start + d else start + d - size
  }

  /** How far `i` is after `start`, cyclically. */
  function Distance(size: nat, start: nat, i: nat): (d: nat)
    requires start < size && i < size
    ensures d < size && Wrap(size, start, d) == i
  {
    if start <= i then i - start else i + size - start
  }

  /** bucket_idx: the bucket where probing for `k` starts, which is all of the hash value up to
      multiples of the size. */
  function Home<K>(hash: K -> nat, size: nat, k: K): (r: nat)
    requires size > 0
    ensures r < size && hash(k) == hash(k) / size * size + r
  {
    hash(k) % size
  }

  /** The bucket at `i` is found by probing from `start`: nothing on the way is free. */
  ghost predicate Reachable<K, V>(b: seq<Bucket<K, V>>, start: nat, i: nat)
    requires start < |b| && i < |b|
  {
    forall d :: 0 <= d < Distance(|b|, start, i) ==> b[Wrap(|b|, start, d)].Used?
  }

  ghost predicate Distinct<K, V>(b: seq<Bucket<K, V>>) {
    forall i, j :: 0 <= i < j < |b| && b[i].Used? && b[j].Used? ==> b[i].k != b[j].k
  }

  /** No key is stored twice and every stored key is reachable from its home bucket. */
  ghost predicate WellPlaced<K, V>(b: seq<Bucket<K, V>>, hash: K -> nat) {
    && Distinct(b)
    && forall i :: 0 <= i < |b| && b[i].Used? ==> Reachable(b, Home(hash, |b|, b[i].k), i)
  }

  ghost predicate Stores<K, V>(b: seq<Bucket<K, V>>, k: K) {
    exists i :: 0 <= i < |b| && b[i].Used? && b[i].k == k
  }

  // ---------------------------------------------------------------- the finite map

  ghost function Contents<K, V>(b: seq<Bucket<K, V>>): map<K, V> {
    if b == [] then map[]
    else
      var m, last := Contents(b[..|b| - 1]), b[|b| - 1];
      if last.Used? then m[last.k := last.v] else m
  }

  ghost function UsedCount<K, V>(b: seq<Bucket<K, V>>): nat {
    if b == [] then 0 else UsedCount(b[..|b| - 1]) + if b[|b| - 1].Used? then 1 else 0
  }

  /** The map has exactly the stored keys, each with its bucket's value, and its size is the
      number of used buckets. */
  lemma {:induction false} ContentsSpec<K(!new), V>(b: seq<Bucket<K, V>>)
    requires Distinct(b)
    ensures forall k :: k in Contents(b) <==> Stores(b, k)
    ensures forall i :: 0 <= i < |b| && b[i].Used? ==> b[i].k in Contents(b) && Contents(b)[b[i].k] == b[i].v
    ensures |Contents(b)| == UsedCount(b) <= |b|
  {
    if b != [] {
      var rest, last := b[..|b| - 1], b[|b| - 1];
      ContentsSpec(rest);
      forall k
        ensures k in Contents(b) <==> Stores(b, k)
      {
        if Stores(rest, k) {
          var i :| 0 <= i < |rest| && rest[i].Used? && rest[i].k == k;
          assert b[i].Used? && b[i].k == k;
        }
        if Stores(b, k) {
          var i :| 0 <= i < |b| && b[i].Used? && b[i].k == k;
          assert i < |rest| ==> rest[i].Used? && rest[i].k == k;
        }
      }
      if last.Used? {
        assert last.k !in Contents(rest);
      }
      forall i | 0 <= i < |b| && b[i].Used?
        ensures b[i].k in Contents(b) && Contents(b)[b[i].k] == b[i].v
      {
        if i < |rest| {
          assert rest[i] == b[i] && b[i].k in Contents(rest);
        }
      }
    }
  }

  /** A vector that is not full has a free bucket. */
  lemma {:induction false} SomeFree<K, V>(b: seq<Bucket<K, V>>) returns (i: nat)
    requires UsedCount(b) < |b|
    ensures i < |b| && b[i].Free?
  {
    if b[|b| - 1].Free? {
      i := |b| - 1;
    } else {
      i := SomeFree(b[..|b| - 1]);
    }
  }

  lemma {:induction false} AllUsed<K, V>(b: seq<Bucket<K, V>>)
    requires forall i :: 0 <= i < |b| ==> b[i].Used?
    ensures UsedCount(b) == |b|
  {
    if b != [] {
      AllUsed(b[..|b| - 1]);
    }
  }

  lemma {:induction false} AllFree<K, V>(b: seq<Bucket<K, V>>)
    requires forall i :: 0 <= i < |b| ==> b[i].Free?
    ensures Contents(b) == map[] && UsedCount(b) == 0
  {
    if b != [] {
      AllFree(b[..|b| - 1]);
    }
  }

  lemma {:induction false} FewerBefore<K(!new), V>(b: seq<Bucket<K, V>>, i: nat)
    requires i < |b| && b[i].Used? && Distinct(b)
    ensures |Contents(b[..i])| < UsedCount(b)
    decreases |b|
  {
    var rest := b[..|b| - 1];
    if i < |b| - 1 {
      assert rest[..i] == b[..i];
      FewerBefore(rest, i);
    } else {
      ContentsSpec(rest);
    }
  }

  // ---------------------------------------------------------------- probing

  /** Having probed `d` buckets from the home of `k` without finding it. */
  ghost predicate Missed<K, V>(b: seq<Bucket<K, V>>, start: nat, k: K, d: nat)
    requires start < |b| && d <= |b|
  {
    forall l :: 0 <= l < d ==> b[Wrap(|b|, start, l)].Used? && b[Wrap(|b|, start, l)].k != k
  }

  /** A free bucket on the probe path, or a full round, proves the key absent. */
  lemma MissedMeansAbsent<K, V>(b: seq<Bucket<K, V>>, hash: K -> nat, k: K, d: nat)
    requires |b| > 0 && WellPlaced(b, hash) && d <= |b|
    requires Missed(b, Home(hash, |b|, k), k, d)
    requires d < |b| ==> b[Wrap(|b|, Home(hash, |b|, k), d)].Free?
    ensures !Stores(b, k)
  {
    var start := Home(hash, |b|, k);
    forall i | 0 <= i < |b| && b[i].Used?
      ensures b[i].k != k
    {
      var e := Distance(|b|, start, i);
      assert b[Wrap(|b|, start, e)] == b[i];
      assert Reachable(b, Home(hash, |b|, b[i].k), i);
    }
  }

  /** One more probe: (b + 1) % size_ is the next bucket of the round. */
  lemma NextProbe<K, V>(b: seq<Bucket<K, V>>, start: nat, k: K, d: nat)
    requires start < |b| && d < |b| && Missed(b, start, k, d)
    ensures (Wrap(|b|, start, d) + 1) % |b| == Wrap(|b|, start, d + 1)
    ensures b[Wrap(|b|, start, d)].Used? && b[Wrap(|b|, start, d)].k != k ==> Missed(b, start, k, d + 1)
  {
    var i := Wrap(|b|, start, d);
    if i + 1 < |b| {
      SmallMod(i + 1, |b|);
    } else {
      assert i + 1 == |b| && |b| % |b| == 0;
    }
  }

  /** bucket_for_key: the bucket holding `k`, or -1. */
  method BucketForKey<K(==), V>(b: seq<Bucket<K, V>>, hash: K -> nat, k: K) returns (r: int)
    requires |b| > 0 && WellPlaced(b, hash)
    ensures r == -1 || 0 <= r < |b|
    ensures r == -1 <==> !Stores(b, k)
    ensures r != -1 ==> b[r].Used? && b[r].k == k
  {
    var start := Home(hash, |b|, k);
    var i := start;
    for d := 0 to |b|
      invariant i == Wrap(|b|, start, d)
      invariant Missed(b, start, k, d)
    {
      if b[i].Used? {
        if b[i].k == k {
          return i;
        }
      } else {
        MissedMeansAbsent(b, hash, k, d);
        return -1;
      }
      NextProbe(b, start, k, d);
      i := (i + 1) % |b|;
    }
    MissedMeansAbsent(b, hash, k, |b|);
    return -1;
  }

  /** The probing loop of put: the bucket of `k` if it is stored, else the first free bucket
      on its path, else (the vector is full) its home bucket. */
  method ProbeForPut<K(==), V>(b: seq<Bucket<K, V>>, hash: K -> nat, k: K) returns (i: nat, found: bool)
    requires |b| > 0 && WellPlaced(b, hash)
    ensures i < |b|
    ensures found <==> Stores(b, k)
    ensures found ==> b[i].Used? && b[i].k == k
    ensures !found && UsedCount(b) < |b| ==> b[i].Free? && Reachable(b, Home(hash, |b|, k), i)
    ensures !found && UsedCount(b) == |b| ==> i == Home(hash, |b|, k) && b[i].Used?
  {
    var start := Home(hash, |b|, k);
    i := start;
    found := false;
    for d := 0 to |b|
      invariant i == Wrap(|b|, start, d)
      invariant Missed(b, start, k, d)
    {
      if b[i].Free? {
        MissedMeansAbsent(b, hash, k, d);
        FreeIsReachable(b, start, k, d);
        NotFull(b, i);
        return;
      }
      if b[i].k == k {
        found := true;
        return;
      }
      NextProbe(b, start, k, d);
      i := (i + 1) % |b|;
    }
    MissedMeansAbsent(b, hash, k, |b|);
    FullRound(b, start, k);
    assert i == start;
  }

  lemma FreeIsReachable<K, V>(b: seq<Bucket<K, V>>, start: nat, k: K, d: nat)
    requires start < |b| && d < |b| && Missed(b, start, k, d)
    ensures Reachable(b, start, Wrap(|b|, start, d))
  {
    assert Distance(|b|, start, Wrap(|b|, start, d)) == d;
  }

  lemma NotFull<K, V>(b: seq<Bucket<K, V>>, i: nat)
    requires i < |b| && b[i].Free?
    ensures UsedCount(b) < |b|
  {
    if i == |b| - 1 {
      CountBound(b[..|b| - 1]);
    } else {
      NotFull(b[..|b| - 1], i);
    }
  }

  lemma {:induction false} CountBound<K, V>(b: seq<Bucket<K, V>>)
    ensures UsedCount(b) <= |b|
  {
    if b != [] {
      CountBound(b[..|b| - 1]);
    }
  }

  lemma FullRound<K, V>(b: seq<Bucket<K, V>>, start: nat, k: K)
    requires start < |b| && Missed(b, start, k, |b|)
    ensures UsedCount(b) == |b| && b[start].Used?
  {
    forall i | 0 <= i < |b|
      ensures b[i].Used?
    {
      assert b[Wrap(|b|, start, Distance(|b|, start, i))].Used?;
    }
    AllUsed(b);
  }

  /** Bucket `i` holds `k`, or is free and the place where a probe for the absent `k` ends. */
  ghost predicate Writable<K, V>(b: seq<Bucket<K, V>>, hash: K -> nat, i: nat, k: K)
    requires i < |b|
  {
    || (b[i].Used? && b[i].k == k)
    || (b[i].Free? && !Stores(b, k) && Reachable(b, Home(hash, |b|, k), i))
  }

  lemma WriteKeepsPlaces<K, V>(b: seq<Bucket<K, V>>, hash: K -> nat, i: nat, k: K, v: V)
    requires i < |b| && WellPlaced(b, hash) && Writable(b, hash, i, k)
    ensures WellPlaced(b[i := Used(k, v)], hash)
  {
    var b' := b[i := Used(k, v)];
    assert forall j :: 0 <= j < |b| && b[j].Used? && b[j].k == k ==> Stores(b, k) && j == i;
    forall j | 0 <= j < |b'| && b'[j].Used?
      ensures Reachable(b', Home(hash, |b'|, b'[j].k), j)
    {
      if j != i || b[i].Used? {
        assert Reachable(b, Home(hash, |b|, b'[j].k), j);
      }
    }
  }

  lemma WriteStores<K, V>(b: seq<Bucket<K, V>>, i: nat, k: K, v: V, x: K)
    requires i < |b| && (b[i].Used? ==> b[i].k == k)
    ensures Stores(b[i := Used(k, v)], x) <==> Stores(b, x) || x == k
  {
    var b' := b[i := Used(k, v)];
    assert b'[i].k == k;
    if Stores(b', x) {
      var j :| 0 <= j < |b'| && b'[j].Used? && b'[j].k == x;
      assert j != i ==> b[j].Used? && b[j].k == x;
    }
    if Stores(b, x) {
      var j :| 0 <= j < |b| && b[j].Used? && b[j].k == x;
      assert b'[j].Used? && b'[j].k == x;
    }
  }

  /** Writing `k` where `ProbeForPut` says keeps the invariant and updates the map at `k`. */
  lemma WriteBucket<K(!new), V>(b: seq<Bucket<K, V>>, hash: K -> nat, i: nat, k: K, v: V)
    requires i < |b| && WellPlaced(b, hash) && Writable(b, hash, i, k)
    ensures WellPlaced(b[i := Used(k, v)], hash)
    ensures Contents(b[i := Used(k, v)]) == Contents(b)[k := v]
  {
    var b' := b[i := Used(k, v)];
    WriteKeepsPlaces(b, hash, i, k, v);
    ContentsSpec(b);
    ContentsSpec(b');
    var m, m' := Contents(b)[k := v], Contents(b');
    assert m'[b'[i].k] == v;
    forall x
      ensures x in m' <==> x in m
      ensures x in m' ==> m'[x] == m[x]
    {
      WriteStores(b, i, k, v, x);
      if x in m' && x != k {
        var j :| 0 <= j < |b'| && b'[j].Used? && b'[j].k == x;
        assert b[j] == b'[j];
      }
    }
  }

  // ---------------------------------------------------------------- scanning

  /** The used entries in bucket order. */
  function Entries<K, V>(b: seq<Bucket<K, V>>): seq<(K, V)> {
    if b == [] then []
    else
      var last := b[|b| - 1];
      Entries(b[..|b| - 1]) + if last.Used? then [(last.k, last.v)] else []
  }

  /** Scanning the buckets lists the map's entries, each exactly once. */
  lemma {:induction false} EntriesList<K(!new), V(!new)>(b: seq<Bucket<K, V>>)
    requires Distinct(b)
    ensures Lists(Entries(b), Contents(b))
  {
    if b != [] {
      var rest, last := b[..|b| - 1], b[|b| - 1];
      EntriesList(rest);
      if last.Used? {
        ContentsSpec(rest);
        assert !Stores(rest, last.k);
        ListsOneMore(Entries(rest), Contents(rest), last.k, last.v);
      } else {
        assert Entries(b) == Entries(rest);
      }
    }
  }
}
