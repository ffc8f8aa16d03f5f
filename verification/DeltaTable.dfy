/** The growing hash table that combines deltas for a remote shard. It refines a finite map
    through every operation; `Put` and `Resize` call each other. */
module DeltaTable {
  import opened DeltaMonoid
  import opened OpenAddressing

  /** entries_ > size_ * kLoadFactor, with kLoadFactor = 0.8. */
  predicate Overloaded(entries: nat, size: nat) { 5 * entries > 4 * size }

  /** `entries` insertions into `size` buckets never find the table overloaded. */
  predicate Roomy(entries: nat, size: nat) { entries > 0 ==> !Overloaded(entries - 1, size) }

  class DeltaTable<K(==, !new), V(!new)> {
    const hash: K -> nat
    const acc: (V, V) -> V
    var buckets: seq<Bucket<K, V>>
    var entries: nat
    var size: nat

    /** The vector, its size and the entry count agree (a cleared vector may have size 0). */
    ghost predicate Consistent()
      reads this
    {
      size == |buckets| && WellPlaced(buckets, hash) && entries == UsedCount(buckets)
    }

    ghost predicate Valid()
      reads this
    {
      Consistent() && size > 0
    }

    ghost function Map(): map<K, V>
      reads this
    {
      Contents(buckets)
    }

    constructor (hash: K -> nat, acc: (V, V) -> V, size: nat)
      requires size > 0
      ensures Valid() && Map() == map[] && this.size == size
      ensures this.hash == hash && this.acc == acc
    {
      this.hash, this.acc := hash, acc;
      buckets, entries, this.size := [], 0, 0;
      new;
      Resize(size);
    }

    /** Rehashes into `newSize` buckets. The map is unchanged, and so is the number of
        entries (the closing CHECK_EQ), for growing and for shrinking sizes alike. */
    method Resize(newSize: nat)
      requires Consistent() && newSize > 0
      modifies this
      ensures Valid() && Map() == old(Map()) && entries == old(entries)
      ensures Roomy(old(entries), newSize) ==> size == newSize
      decreases if Roomy(entries, newSize) then 1 else 3
    {
      if size == newSize {
        return;
      }
      var oldBuckets := buckets;
      ghost var roomy := Roomy(entries, newSize);
      buckets := seq(newSize, _ => Free);
      size := newSize;
      Clear();
      for i := 0 to |oldBuckets|
        invariant Valid() && Map() == Contents(oldBuckets[..i])
        invariant roomy ==> size == newSize
      {
        assert oldBuckets[..i + 1][..i] == oldBuckets[..i];
        if oldBuckets[i].Used? {
          FewerBefore(oldBuckets, i);
          SizeOfMap();
          assert Distinct(oldBuckets[..i]);
          ContentsSpec(oldBuckets[..i]);
          Put(oldBuckets[i].k, oldBuckets[i].v);
        }
      }
      assert oldBuckets[..|oldBuckets|] == oldBuckets;
      SizeOfMap();
      ContentsSpec(oldBuckets);
      assert entries == old(entries);
    }

    lemma SizeOfMap()
      requires Consistent()
      ensures |Map()| == entries <= size
    {
      ContentsSpec(buckets);
    }

    /** Inserts or replaces. An insertion into an overloaded table grows it first; otherwise
        there is always a free bucket on the probe path. */
    method Put(k: K, v: V)
      requires Valid()
      modifies this
      ensures Valid() && Map() == old(Map())[k := v]
      ensures entries == old(entries) + (if k in old(Map()) then 0 else 1)
      ensures size == if k !in old(Map()) && 5 * old(entries) > 4 * old(size) then 2 * old(size) + 1 else old(size)
      decreases if Overloaded(entries, size) then 2 else 0
    {
      ContentsSpec(buckets);
      var i, found := ProbeForPut(buckets, hash, k);
      if !found {
        if Overloaded(entries, size) {
          Resize(1 + size * 2);
          Put(k, v);
        } else {
          assert buckets[i].Free?;
          WriteBucket(buckets, hash, i, k, v);
          buckets := buckets[i := Used(k, v)];
          entries := entries + 1;
          ContentsSpec(buckets);
        }
      } else {
        WriteBucket(buckets, hash, i, k, v);
        buckets := buckets[i := Used(k, v)];
        ContentsSpec(buckets);
      }
    }

    method ContainsKey(k: K) returns (r: bool)
      requires Valid()
      ensures r <==> k in Map()
    {
      ContentsSpec(buckets);
      var i := BucketForKey(buckets, hash, k);
      r := i != -1;
    }

    method Get(k: K) returns (v: V)
      requires Valid() && k in Map()
      ensures v == Map()[k]
    {
      ContentsSpec(buckets);
      var i := BucketForKey(buckets, hash, k);
      v := buckets[i].v;
    }

    method Update(k: K, v: V)
      requires Valid() && k in Map()
      modifies this`buckets
      ensures Valid() && Map() == old(Map())[k := v]
    {
      ContentsSpec(buckets);
      var i := BucketForKey(buckets, hash, k);
      WriteBucket(buckets, hash, i, k, v);
      buckets := buckets[i := Used(k, v)];
      ContentsSpec(buckets);
    }

    /** The combining step: what the protocol calls accumulating into a buffer. */
    method Accumulate(k: K, v: V)
      requires Valid()
      modifies this
      ensures Valid()
      ensures Map() == old(Map())[k := if k in old(Map()) then acc(old(Map())[k], v) else v]
    {
      ContentsSpec(buckets);
      var i := BucketForKey(buckets, hash, k);
      if i == -1 {
        Put(k, v);
      } else {
        var x := acc(buckets[i].v, v);
        WriteBucket(buckets, hash, i, k, x);
        buckets := buckets[i := Used(k, x)];
        ContentsSpec(buckets);
      }
    }

    method Clear()
      requires size == |buckets|
      modifies this`buckets, this`entries
      ensures Consistent() && Map() == map[] && entries == 0
    {
      buckets := seq(size, _ => Free);
      entries := 0;
      AllFree(buckets);
    }

    method Reset()
      modifies this
      ensures Valid() && Map() == map[] && size == 1 && entries == 0
    {
      buckets, size, entries := [], 0, 0;
      Resize(1);
    }

    /** Iterator over the used buckets: every entry exactly once. */
    method SerializeToNet() returns (kv: seq<(K, V)>)
      requires Valid()
      ensures kv == Entries(buckets) && Lists(kv, Map())
    {
      kv := [];
      var pos := Next(-1);
      assert Entries(buckets[..pos]) == [];
      while pos != size
        invariant 0 <= pos <= size && (pos < size ==> buckets[pos].Used?)
        invariant kv == Entries(buckets[..pos])
        decreases size - pos
      {
        kv := kv + [(buckets[pos].k, buckets[pos].v)];
        assert buckets[..pos + 1][..pos] == buckets[..pos];
        pos := Next(pos);
      }
      assert buckets[..size] == buckets;
      EntriesList(buckets);
    }

    /** Iterator::Next: the next used bucket after `from`, or `size`. */
    method Next(from: int) returns (pos: int)
      requires Valid() && -1 <= from < size
      ensures from < pos <= size && (pos < size ==> buckets[pos].Used?)
      ensures Entries(buckets[..pos]) == Entries(buckets[..from + 1])
    {
      pos := from + 1;
      while pos < size && !buckets[pos].Used?
        invariant from < pos <= size
        invariant Entries(buckets[..pos]) == Entries(buckets[..from + 1])
      {
        assert buckets[..pos + 1][..pos] == buckets[..pos];
        pos := pos + 1;
      }
    }
  }
}
