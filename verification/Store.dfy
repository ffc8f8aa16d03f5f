/** The adjacency store: lists written as one data vector and a vector of prefix sums, read back
    by slicing, behind the hot-aware cache. */
module Store {
  import opened HotCache

  type Links = seq<int>

  function Flat(rows: seq<Links>): Links { if rows == [] then [] else Flat(rows[..|rows| - 1]) + rows[|rows| - 1] }

  /** Writer::write: hdr[k] is the number of elements before list k; vec is all of them. */
  method Write(rows: seq<Links>) returns (hdr: seq<nat>, vec: Links)
    ensures |hdr| == |rows| + 1 && vec == Flat(rows)
    ensures forall k :: 0 <= k <= |rows| ==> hdr[k] == |Flat(rows[..k])|
  {
    var total := 0;
    hdr, vec := [total], [];
    for i := 0 to |rows|
      invariant |hdr| == i + 1 && vec == Flat(rows[..i]) && total == |vec|
      invariant forall k :: 0 <= k <= i ==> hdr[k] == |Flat(rows[..k])|
    {
      assert rows[..i + 1][..i] == rows[..i];
      total := total + |rows[i]|;
      hdr := hdr + [total];
      vec := vec + rows[i];
    }
    assert rows[..|rows|] == rows;
  }

  /** Files that hold the given lists. */
  ghost predicate Holds(hdr: seq<nat>, vec: Links, rows: seq<Links>) {
    && |hdr| == |rows| + 1 && vec == Flat(rows)
    && forall k :: 0 <= k <= |rows| ==> hdr[k] == |Flat(rows[..k])|
  }

  /** A list lies between the elements before it and those before the next one. */
  lemma {:induction false} FlatSlice(rows: seq<Links>, k: nat)
    requires k < |rows|
    ensures |Flat(rows[..k + 1])| == |Flat(rows[..k])| + |rows[k]| <= |Flat(rows)|
    ensures Flat(rows)[|Flat(rows[..k])|..|Flat(rows[..k + 1])|] == rows[k]
    decreases |rows|
  {
    var n := |rows| - 1;
    if k == n {
      assert rows[..k + 1] == rows;
    } else {
      var init := rows[..n];
      FlatSlice(init, k);
      assert init[..k] == rows[..k] && init[..k + 1] == rows[..k + 1];
    }
  }

  /** Reader::read */
  function Read(hdr: seq<nat>, vec: Links, index: nat): Links
    requires index + 1 < |hdr| && hdr[index] <= hdr[index + 1] <= |vec|
  {
    var pos := hdr[index];
    var dist := hdr[index + 1] - hdr[index];
    vec[pos..pos + dist]
  }

  /** What was written is read back, list by list. */
  lemma ReadBack(hdr: seq<nat>, vec: Links, rows: seq<Links>, k: nat)
    requires Holds(hdr, vec, rows) && k < |rows|
    ensures k + 1 < |hdr| && hdr[k] <= hdr[k + 1] <= |vec|
    ensures Read(hdr, vec, k) == rows[k]
  {
    FlatSlice(rows, k);
  }

  /** The list a request for `k` must be answered with. */
  function Answer(rows: seq<Links>, influMap: map<int, Links>, k: int): Links
    requires k in influMap || 0 <= k < |rows|
  {
    if k in influMap then influMap[k] else rows[k]
  }

  class SStore {
    const cache: Cache<int, Links>
    const hdr: seq<nat>
    const vec: Links

    /** The lists behind the files. */
    ghost const rows: seq<Links>

    ghost predicate Valid()
      reads this, cache
    {
      && cache.Valid() && Holds(hdr, vec, rows)
      && cache.kv.Keys !! cache.influMap.Keys
      && forall k :: k in cache.kv ==> 0 <= k < |rows| && cache.kv[k] == rows[k]
    }

    constructor (hdr: seq<nat>, vec: Links, influMap: map<int, Links>, ghost rows: seq<Links>)
      requires Holds(hdr, vec, rows)
      ensures Valid() && fresh(cache) && this.rows == rows && cache.influMap == influMap
    {
      this.hdr, this.vec, this.rows := hdr, vec, rows;
      cache := new Cache(influMap);
    }

    /** The answer does not depend on what the cache has kept or evicted. */
    method GetData(k: int, priority: real) returns (d: Links)
      requires Valid() && (k in cache.influMap || 0 <= k < |rows|)
      modifies cache
      ensures Valid() && d == Answer(rows, cache.influMap, k)
      ensures k in cache.influMap ==> cache.kv == old(cache.kv) && cache.kp == old(cache.kp)
      ensures k !in cache.influMap
              && (k in old(cache.kv) || |old(cache.kv)| < CACHE_SIZE || Outdone(old(cache.kp), priority)) ==>
                k in cache.kv && k in cache.kp && cache.kp[k] == priority
    {
      hide Cache.Valid, Holds;
      if cache.ContainsKey(k) {
        d := cache.GetValue(k);
        if !cache.ContainsInfluKey(k) {
          cache.AddCache(k, d, priority);
        }
        return;
      }
      ReadBack(hdr, vec, rows, k);
      d := Read(hdr, vec, k);
      cache.AddCache(k, d, priority);
    }
  }

  datatype Request = Request(key: int, priority: real)

  /** Writing lists and then serving any sequence of requests gives each its list. */
  method Serve(rows: seq<Links>, influMap: map<int, Links>, requests: seq<Request>) returns (answers: seq<Links>)
    requires forall i :: 0 <= i < |requests| ==> requests[i].key in influMap || 0 <= requests[i].key < |rows|
    ensures |answers| == |requests|
    ensures forall i :: 0 <= i < |requests| ==>
              answers[i] == if requests[i].key in influMap then influMap[requests[i].key] else rows[requests[i].key]
  {
    hide Cache.Valid, Flat;
    var hdr, vec := Write(rows);
    var store := new SStore(hdr, vec, influMap, rows);
    answers := [];
    for i := 0 to |requests|
      invariant store.Valid() && fresh(store) && fresh(store.cache)
      invariant |answers| == i && forall j :: 0 <= j < i ==> answers[j] == Answer(rows, influMap, requests[j].key)
    {
      var d := store.GetData(requests[i].key, requests[i].priority);
      answers := answers + [d];
    }
  }
}
