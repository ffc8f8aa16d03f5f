/** The hot-aware cache: values by key, priorities by key, and keys ordered by priority, kept in
    step, beside a fixed map of influential keys. */
module HotCache {
  import opened Collections

  const CACHE_SIZE: nat := 100000

  /** std::multimap<float, K> in iteration order. */
  type ByPriority<K> = seq<(real, K)>

  // ---------------------------------------------------------------- the ordered structure

  ghost predicate Ordered<K>(pk: ByPriority<K>) { forall i, j :: 0 <= i < j < |pk| ==> pk[i].0 <= pk[j].0 }

  /** pk holds exactly the pairs (kp[k], k), each once. */
  ghost predicate InStep<K>(pk: ByPriority<K>, kp: map<K, real>) {
    && (forall i :: 0 <= i < |pk| ==> pk[i].1 in kp && kp[pk[i].1] == pk[i].0)
    && (forall i, j :: 0 <= i < j < |pk| ==> pk[i].1 != pk[j].1)
    && (forall k :: k in kp ==> (kp[k], k) in pk)
  }

  function Total<K>(pk: ByPriority<K>): real { if pk == [] then 0.0 else pk[0].0 + Total(pk[1..]) }

  /** The end of the equal range of p: everything before is at most p, everything after above. */
  function UpperBound<K>(pk: ByPriority<K>, p: real): (i: nat)
    ensures i <= |pk|
    ensures forall j :: 0 <= j < i ==> pk[j].0 <= p
    ensures i < |pk| ==> p < pk[i].0
  {
    if pk == [] || p < pk[0].0 then 0 else 1 + UpperBound(pk[1..], p)
  }

  /** The start of the equal range of p. */
  function LowerBound<K>(pk: ByPriority<K>, p: real): (i: nat)
    ensures i <= |pk|
    ensures forall j :: 0 <= j < i ==> pk[j].0 < p
    ensures i < |pk| ==> p <= pk[i].0
  {
    if pk == [] || p <= pk[0].0 then 0 else 1 + LowerBound(pk[1..], p)
  }

  /** In an ordered structure the equal range of p holds all pairs of priority p. */
  lemma InRange<K>(pk: ByPriority<K>, i: nat)
    requires Ordered(pk) && i < |pk|
    ensures LowerBound(pk, pk[i].0) <= i < UpperBound(pk, pk[i].0)
  {
    hide LowerBound, UpperBound;
  }

  function Inserted<T>(s: seq<T>, i: nat, x: T): (r: seq<T>)
    requires i <= |s|
    ensures |r| == |s| + 1
    ensures forall j :: 0 <= j < |r| ==> r[j] == if j < i then s[j] else if j == i then x else s[j - 1]
  {
    s[..i] + [x] + s[i..]
  }

  lemma {:induction false} EraseInStep<K>(pk: ByPriority<K>, kp: map<K, real>, i: nat)
    requires InStep(pk, kp) && i < |pk|
    ensures InStep(Without(pk, i), kp - {pk[i].1})
  {
    WithoutAt(pk, i);
    var r, kp' := Without(pk, i), kp - {pk[i].1};
    forall k | k in kp' ensures (kp'[k], k) in r {
      var j :| 0 <= j < |pk| && pk[j] == (kp[k], k);
      assert r[if j < i then j else j - 1] == pk[j];
    }
  }

  lemma {:induction false} InsertInStep<K>(pk: ByPriority<K>, kp: map<K, real>, i: nat, p: real, k: K)
    requires InStep(pk, kp) && i <= |pk| && k !in kp
    ensures InStep(Inserted(pk, i, (p, k)), kp[k := p])
  {
    var r, kp' := Inserted(pk, i, (p, k)), kp[k := p];
    forall x | x in kp' ensures (kp'[x], x) in r {
      if x == k {
        assert r[i] == (p, k);
      } else {
        var j :| 0 <= j < |pk| && pk[j] == (kp[x], x);
        assert r[if j < i then j else j + 1] == pk[j];
      }
    }
  }

  lemma EraseOrdered<K>(pk: ByPriority<K>, i: nat)
    requires Ordered(pk) && i < |pk|
    ensures Ordered(Without(pk, i))
  {
    WithoutAt(pk, i);
  }

  lemma InsertOrdered<K>(pk: ByPriority<K>, p: real, k: K)
    requires Ordered(pk)
    ensures Ordered(Inserted(pk, UpperBound(pk, p), (p, k)))
  {
    hide UpperBound;
  }

  lemma {:induction false} TotalConcat<K>(a: ByPriority<K>, b: ByPriority<K>)
    ensures Total(a + b) == Total(a) + Total(b)
  {
    if a == [] {
      assert a + b == b;
    } else {
      assert (a + b)[1..] == a[1..] + b;
      TotalConcat(a[1..], b);
    }
  }

  lemma {:induction false} TotalInserted<K>(pk: ByPriority<K>, i: nat, x: (real, K))
    requires i <= |pk|
    ensures Total(Inserted(pk, i, x)) == Total(pk) + x.0
  {
    assert pk == pk[..i] + pk[i..];
    assert Inserted(pk, i, x) == pk[..i] + ([x] + pk[i..]);
    assert ([x] + pk[i..])[1..] == pk[i..];
    TotalConcat(pk[..i], pk[i..]);
    TotalConcat(pk[..i], [x] + pk[i..]);
  }

  lemma {:induction false} TotalErased<K>(pk: ByPriority<K>, i: nat)
    requires i < |pk|
    ensures Total(Without(pk, i)) == Total(pk) - pk[i].0
  {
    TotalInserted(Without(pk, i), i, pk[i]);
    assert Inserted(Without(pk, i), i, pk[i]) == pk;
  }

  /** As many pairs as keys. */
  lemma {:induction false} InStepSize<K>(pk: ByPriority<K>, kp: map<K, real>)
    requires InStep(pk, kp)
    ensures |pk| == |kp|
    decreases |pk|
  {
    hide InStep, Without;
    if pk == [] {
      NoPairs(kp);
    } else {
      var k := pk[0].1;
      HasPair(pk, kp, 0);
      EraseInStep(pk, kp, 0);
      InStepSize(Without(pk, 0), kp - {k});
      Smaller(kp, k);
    }
  }

  lemma NoPairs<K>(kp: map<K, real>)
    requires InStep([], kp)
    ensures kp == map[]
  {
  }

  lemma HasPair<K>(pk: ByPriority<K>, kp: map<K, real>, i: nat)
    requires InStep(pk, kp) && i < |pk|
    ensures pk[i].1 in kp
  {
  }

  // ---------------------------------------------------------------- the cache

  /** Some stored priority is more than 0.02 below p. */
  ghost predicate Outdone<K>(kp: map<K, real>, p: real) { exists k :: k in kp && kp[k] + 0.02 < p }

  ghost predicate Least<K>(kp: map<K, real>, k: K) {
    k in kp && forall x :: x in kp ==> kp[k] <= kp[x]
  }

  /** The first pair is a minimum. */
  lemma FirstIsLeast<K>(pk: ByPriority<K>, kp: map<K, real>, p: real)
    requires Ordered(pk) && InStep(pk, kp) && pk != []
    ensures Least(kp, pk[0].1) && kp[pk[0].1] == pk[0].0
    ensures Outdone(kp, p) <==> pk[0].0 + 0.02 < p
  {
    forall x | x in kp ensures pk[0].0 <= kp[x] {
      assert (kp[x], x) in pk;
    }
  }

  /** The one pair of a key, in the equal range of its priority. */
  lemma PairAt<K>(pk: ByPriority<K>, kp: map<K, real>, key: K) returns (at: nat)
    requires Ordered(pk) && InStep(pk, kp) && key in kp
    ensures at < |pk| && pk[at] == (kp[key], key)
    ensures LowerBound(pk, kp[key]) <= at < UpperBound(pk, kp[key])
    ensures forall i :: 0 <= i < |pk| && pk[i].1 == key ==> i == at
  {
    hide LowerBound, UpperBound;
    at :| at < |pk| && pk[at] == (kp[key], key);
    InRange(pk, at);
  }

  /** The pair joined behind all pairs of at most its priority, so pairs of equal priority stand in
      the order in which they came. */
  ghost predicate PutBehind<K>(pk: ByPriority<K>, pk': ByPriority<K>, p: real, k: K) {
    exists i ::
      && 0 <= i <= |pk| && (forall j :: 0 <= j < i ==> pk[j].0 <= p) && (i < |pk| ==> p < pk[i].0)
      && pk' == Inserted(pk, i, (p, k))
  }

  class Cache<K(==), V> {
    var pk: ByPriority<K>
    var kp: map<K, real>
    var kv: map<K, V>
    const influMap: map<K, V>

    ghost predicate Valid()
      reads this
    {
      Ordered(pk) && InStep(pk, kp) && kv.Keys == kp.Keys && |kv| <= CACHE_SIZE
    }

    constructor (influMap: map<K, V>)
      ensures Valid() && kv == map[] && this.influMap == influMap
    {
      this.influMap := influMap;
      pk, kp, kv := [], map[], map[];
    }

    predicate ContainsKey(key: K)
      reads this
    {
      key in kv || key in influMap
    }

    predicate ContainsInfluKey(key: K) { key in influMap }

    /** The lookup never misses: a key that is contained is in one of the two maps. */
    function GetValue(key: K): V
      requires ContainsKey(key)
      reads this
    {
      if ContainsInfluKey(key) then influMap[key] else kv[key]
    }

    method Add(key: K, val: V, priority: real)
      requires Valid() && key !in kv && |kv| < CACHE_SIZE
      modifies this`pk, this`kp, this`kv
      ensures Valid()
      ensures kv == old(kv)[key := val] && kp == old(kp)[key := priority]
      ensures Total(pk) == old(Total(pk)) + priority
      ensures PutBehind(old(pk), pk, priority, key)
    {
      hide Ordered, InStep, Inserted, UpperBound, Total;
      ghost var i := UpperBound(pk, priority);
      InsertOrdered(pk, priority, key);
      InsertInStep(pk, kp, i, priority, key);
      TotalInserted(pk, i, (priority, key));
      kv := kv[key := val];
      kp := kp[key := priority];
      pk := Inserted(pk, UpperBound(pk, priority), (priority, key));
    }

    /** Takes the pair of a key out of the equal range of its priority. */
    method ErasePair(key: K)
      requires Valid() && key in kp
      modifies this`pk
      ensures Ordered(pk) && InStep(pk, kp - {key})
      ensures Total(pk) == old(Total(pk)) - kp[key]
      ensures exists at :: 0 <= at < |old(pk)| && old(pk)[at] == (kp[key], key) && pk == Without(old(pk), at)
    {
      hide Ordered, InStep, Without, LowerBound, UpperBound, Total;
      ghost var at := PairAt(pk, kp, key);
      var proir := kp[key];
      var i, end := LowerBound(pk, proir), UpperBound(pk, proir);
      while i < end && pk[i].1 != key
        invariant i <= at < end <= |pk|
      {
        i := i + 1;
      }
      assert i == at;
      EraseOrdered(pk, i);
      EraseInStep(pk, kp, i);
      TotalErased(pk, i);
      pk := Without(pk, i);
    }

    method UpdatePriority(key: K, priority: real)
      requires Valid() && key in kv
      modifies this`pk, this`kp
      ensures Valid() && kp == old(kp)[key := priority]
      ensures Total(pk) == old(Total(pk)) - old(kp)[key] + priority
      ensures exists at ::
                && 0 <= at < |old(pk)| && old(pk)[at] == (old(kp)[key], key)
                && PutBehind(Without(old(pk), at), pk, priority, key)
    {
      hide Ordered, InStep, Inserted, UpperBound, Total;
      ErasePair(key);
      ghost var erased := pk;
      ghost var i, others := UpperBound(pk, priority), kp - {key};
      InsertOrdered(pk, priority, key);
      InsertInStep(pk, others, i, priority, key);
      TotalInserted(pk, i, (priority, key));
      pk := Inserted(pk, UpperBound(pk, priority), (priority, key));
      assert PutBehind(erased, pk, priority, key);
      kp := kp - {key};
      kp := kp[key := priority];
    }

    /** Makes room for a priority that beats the least one by more than 0.02. */
    method DeleteMin(priority: real) returns (deleted: bool, ghost victim: K)
      requires Valid() && |kv| > 0
      modifies this`pk, this`kp, this`kv
      ensures Valid() && deleted == Outdone(old(kp), priority) && Least(old(kp), victim) && victim in old(kv)
      ensures old(pk) != [] && victim == old(pk)[0].1 && (deleted ==> pk == Without(old(pk), 0))
      ensures if deleted
              then kv == old(kv) - {victim} && kp == old(kp) - {victim} && Total(pk) == old(Total(pk)) - old(kp)[victim]
                   && old(kp)[victim] + 0.02 < priority
              else kv == old(kv) && kp == old(kp) && pk == old(pk)
    {
      hide Ordered, InStep, Without, Total, Least;
      assert |kv| == |kv.Keys| && |kp| == |kp.Keys|;
      InStepSize(pk, kp);
      FirstIsLeast(pk, kp, priority);
      var (val, key) := pk[0];
      victim := key;
      deleted := val + 0.02 < priority;
      if deleted {
        EraseOrdered(pk, 0);
        EraseInStep(pk, kp, 0);
        TotalErased(pk, 0);
        Smaller(kv, key);
        pk := Without(pk, 0);
        kp := kp - {key};
        kv := kv - {key};
      }
    }

    /** A hit changes the priority only; a miss is stored while there is room, and else only
        in place of a least key that it beats, which raises the total priority. */
    method AddCache(key: K, val: V, priority: real)
      requires Valid()
      modifies this`pk, this`kp, this`kv
      ensures Valid()
      ensures key in old(kv) ==>
                kv == old(kv) && kp == old(kp)[key := priority]
                && Total(pk) == old(Total(pk)) - old(kp)[key] + priority
      ensures key !in old(kv) && |old(kv)| < CACHE_SIZE ==>
                kv == old(kv)[key := val] && kp == old(kp)[key := priority]
                && Total(pk) == old(Total(pk)) + priority
      ensures key !in old(kv) && |old(kv)| >= CACHE_SIZE && Outdone(old(kp), priority) ==>
                |kv| == CACHE_SIZE && Total(pk) > old(Total(pk)) + 0.02
                && exists victim ::
                     Least(old(kp), victim) && old(pk) != [] && victim == old(pk)[0].1
                     && kv == (old(kv) - {victim})[key := val] && kp == (old(kp) - {victim})[key := priority]
      ensures key !in old(kv) && |old(kv)| >= CACHE_SIZE && !Outdone(old(kp), priority) ==>
                kv == old(kv) && kp == old(kp) && pk == old(pk)
    {
      hide Ordered, InStep, Outdone, Least, Total;
      if key in kv {
        UpdatePriority(key, priority);
      } else if |kv| < CACHE_SIZE {
        Add(key, val, priority);
      } else {
        var deleted, victim := DeleteMin(priority);
        if deleted {
          Smaller(old(kv), victim);
          Add(key, val, priority);
        }
      }
    }
  }

  lemma Smaller<K, V>(m: map<K, V>, k: K)
    requires k in m
    ensures |m - {k}| == |m| - 1
  {
    assert m == (m - {k})[k := m[k]];
  }
}
