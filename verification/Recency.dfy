/** What an LRU cache holds: its entries from the least to the most recently used one. */
module Recency {
  import opened Collections

  datatype Entry<K, V> = Entry(key: K, value: V)

  datatype Limits = Limits(maxSize: nat, elasticity: nat)

  datatype Op<K, V> = Insert(key: K, value: V) | Get(key: K) | Remove(key: K)

  ghost predicate DistinctKeys<K, V>(s: seq<Entry<K, V>>) {
    forall i, j :: 0 <= i < j < |s| ==> s[i].key != s[j].key
  }

  function IndexOf<K(==), V>(s: seq<Entry<K, V>>, k: K): (r: int)
    ensures -1 <= r < |s|
    ensures r >= 0 ==> s[r].key == k
    ensures r == -1 ==> forall i :: 0 <= i < |s| ==> s[i].key != k
  {
    if s == [] then -1
    else if s[0].key == k then 0
    else var r := IndexOf(s[1..], k); if r == -1 then -1 else r + 1
  }

  /** The entry at i moves to the most recent end. */
  function Touched<T>(s: seq<T>, i: nat): (r: seq<T>)
    requires i < |s|
    ensures |r| == |s|
  {
    Without(s, i) + [s[i]]
  }

  /** Once the size reaches the limit plus the slack, the oldest entries above the limit go. */
  function Pruned<T>(l: Limits, s: seq<T>): (r: seq<T>)
    ensures |r| <= |s|
  {
    if l.maxSize > 0 && |s| >= l.maxSize + l.elasticity && |s| > l.maxSize then s[|s| - l.maxSize..] else s
  }

  function Apply<K(==), V>(l: Limits, s: seq<Entry<K, V>>, op: Op<K, V>): seq<Entry<K, V>> {
    var i := IndexOf(s, op.key);
    match op
    case Insert(k, v) => if i >= 0 then Touched(s, i) else Pruned(l, s + [Entry(k, v)])
    case Get(_) => if i >= 0 then Touched(s, i) else s
    case Remove(_) => if i >= 0 then Without(s, i) else s
  }

  function After<K(==), V>(l: Limits, ops: seq<Op<K, V>>): seq<Entry<K, V>> {
    if ops == [] then [] else Apply(l, After(l, ops[..|ops| - 1]), ops[|ops| - 1])
  }

  ghost predicate SizeOk(l: Limits, n: nat) {
    l.maxSize > 0 ==> if l.elasticity == 0 then n <= l.maxSize else n < l.maxSize + l.elasticity
  }

  // ---------------------------------------------------------------- order of use

  /** The operations that use a key: every insertion, and every lookup that finds it. */
  function Uses<K(==), V>(l: Limits, ops: seq<Op<K, V>>): seq<K> {
    if ops == [] then []
    else
      var before, op := ops[..|ops| - 1], ops[|ops| - 1];
      var used := Uses(l, before);
      if op.Insert? || (op.Get? && IndexOf(After(l, before), op.key) >= 0) then used + [op.key] else used
  }

  /** The position of the last use of a key, or -1. */
  function LastUse<K(==)>(used: seq<K>, k: K): (r: int)
    ensures -1 <= r < |used|
  {
    if used == [] then -1
    else if used[|used| - 1] == k then |used| - 1
    else LastUse(used[..|used| - 1], k)
  }

  /** Entries are in the order of their last uses, and all have been used. */
  ghost predicate ByUse<K, V>(s: seq<Entry<K, V>>, used: seq<K>) {
    && (forall i :: 0 <= i < |s| ==> LastUse(used, s[i].key) >= 0)
    && forall i, j :: 0 <= i < j < |s| ==> LastUse(used, s[i].key) < LastUse(used, s[j].key)
  }

  lemma {:induction false} UseMore<K, V>(s: seq<Entry<K, V>>, used: seq<K>, e: Entry<K, V>)
    requires ByUse(s, used) && forall i :: 0 <= i < |s| ==> s[i].key != e.key
    ensures ByUse(s + [e], used + [e.key])
  {
    var used' := used + [e.key];
    assert used'[..|used|] == used;
    forall k | k != e.key ensures LastUse(used', k) == LastUse(used, k) {
    }
    assert LastUse(used', e.key) == |used|;
  }

  lemma {:induction false} UseDrop<K, V>(s: seq<Entry<K, V>>, used: seq<K>, i: nat)
    requires ByUse(s, used) && i < |s|
    ensures ByUse(Without(s, i), used)
    ensures forall j :: 0 <= j < |s| - 1 ==> Without(s, i)[j].key != s[i].key
  {
  }

  lemma {:induction false} ApplyByUse<K, V>(l: Limits, s: seq<Entry<K, V>>, used: seq<K>, op: Op<K, V>)
    requires ByUse(s, used)
    ensures var uses := op.Insert? || (op.Get? && IndexOf(s, op.key) >= 0);
            ByUse(Apply(l, s, op), if uses then used + [op.key] else used)
  {
    var i := IndexOf(s, op.key);
    if i >= 0 {
      UseDrop(s, used, i);
      if !op.Remove? {
        UseMore(Without(s, i), used, s[i]);
      }
    } else if op.Insert? {
      UseMore(s, used, Entry(op.key, op.value));
    }
  }

  /** After every history the entries run from the least to the most recently used one. */
  lemma {:induction false} EveryHistoryByUse<K, V>(l: Limits, ops: seq<Op<K, V>>)
    ensures ByUse(After(l, ops), Uses(l, ops)) && DistinctKeys(After(l, ops))
    decreases |ops|
  {
    if ops != [] {
      var before := ops[..|ops| - 1];
      EveryHistoryByUse(l, before);
      ApplyByUse(l, After(l, before), Uses(l, before), ops[|ops| - 1]);
    }
  }

  lemma {:induction false} ApplyBounded<K, V>(l: Limits, s: seq<Entry<K, V>>, op: Op<K, V>)
    requires SizeOk(l, |s|)
    ensures SizeOk(l, |Apply(l, s, op)|)
    ensures op.Insert? ==> (var r := Apply(l, s, op); r != [] && r[|r| - 1].key == op.key)
  {
    hide IndexOf;
    var i := IndexOf(s, op.key);
    if i >= 0 {
      assert |Touched(s, i)| == |s| && Touched(s, i)[|s| - 1] == s[i];
    }
  }

  /** The size bound holds after every history, and the key inserted last is present, as the
      most recent one. */
  lemma {:induction false} EveryHistoryBounded<K, V>(l: Limits, ops: seq<Op<K, V>>)
    ensures SizeOk(l, |After(l, ops)|)
    ensures ops != [] && ops[|ops| - 1].Insert? ==>
              (var s := After(l, ops); s != [] && s[|s| - 1].key == ops[|ops| - 1].key)
    decreases |ops|
  {
    if ops != [] {
      EveryHistoryBounded(l, ops[..|ops| - 1]);
      ApplyBounded(l, After(l, ops[..|ops| - 1]), ops[|ops| - 1]);
    }
  }

  /** No operation changes the value of a key that stays, not even inserting that key again. */
  lemma {:induction false} ValuesStay<K, V>(l: Limits, s: seq<Entry<K, V>>, op: Op<K, V>, a: nat, b: nat)
    requires DistinctKeys(s) && a < |s| && b < |Apply(l, s, op)| && Apply(l, s, op)[b].key == s[a].key
    ensures Apply(l, s, op)[b] == s[a]
  {
    hide IndexOf, DistinctKeys;
    var i := IndexOf(s, op.key);
    if i >= 0 {
      if op.Remove? {
        FromDrop(s, i, b);
      } else if b < |s| - 1 {
        FromDrop(s, i, b);
      }
      OneEntry(s, a, if !op.Remove? && b == |s| - 1 then i else if b < i then b else b + 1);
    } else if op.Insert? {
      OneEntry(s, a, b + |s| + 1 - |Apply(l, s, op)|);
    } else {
      OneEntry(s, a, b);
    }
  }

  lemma {:induction false} FromDrop<T>(s: seq<T>, i: nat, b: nat)
    requires i < |s| && b < |s| - 1
    ensures Without(s, i)[b] == s[if b < i then b else b + 1]
  {
  }

  lemma {:induction false} OneEntry<K, V>(s: seq<Entry<K, V>>, a: nat, b: nat)
    requires DistinctKeys(s) && a < |s|
    ensures b < |s| && s[a].key == s[b].key ==> a == b
  {
  }

  // ---------------------------------------------------------------- what else stays

  /** The entries with other keys, in order. */
  function Others<K(==), V>(s: seq<Entry<K, V>>, k: K): seq<Entry<K, V>> {
    if s == [] then [] else (if s[0].key == k then [] else [s[0]]) + Others(s[1..], k)
  }

  lemma {:induction false} OthersConcat<K, V>(a: seq<Entry<K, V>>, b: seq<Entry<K, V>>, k: K)
    ensures Others(a + b, k) == Others(a, k) + Others(b, k)
  {
    if a == [] {
      assert a + b == b;
    } else {
      assert (a + b)[0] == a[0] && (a + b)[1..] == a[1..] + b;
      OthersConcat(a[1..], b, k);
    }
  }

  lemma {:induction false} OthersAll<K, V>(s: seq<Entry<K, V>>, k: K)
    requires forall i :: 0 <= i < |s| ==> s[i].key != k
    ensures Others(s, k) == s
  {
    if s != [] {
      OthersAll(s[1..], k);
    }
  }

  lemma {:induction false} OthersDrop<K, V>(s: seq<Entry<K, V>>, i: nat)
    requires DistinctKeys(s) && i < |s|
    ensures Others(s, s[i].key) == Without(s, i)
  {
    var k, a, b := s[i].key, s[..i], s[i + 1..];
    OtherKeys(s, i, a, b);
    hide DistinctKeys, Others;
    assert s == a + ([s[i]] + b);
    OthersConcat(a, [s[i]] + b, k);
    OthersFirst(s[i], b);
    OthersAll(a, k);
    OthersAll(b, k);
  }

  lemma OtherKeys<K, V>(s: seq<Entry<K, V>>, i: nat, a: seq<Entry<K, V>>, b: seq<Entry<K, V>>)
    requires DistinctKeys(s) && i < |s| && a == s[..i] && b == s[i + 1..]
    ensures forall j :: 0 <= j < |a| ==> a[j].key != s[i].key
    ensures forall j :: 0 <= j < |b| ==> b[j].key != s[i].key
  {
  }

  lemma {:induction false} OthersFirst<K, V>(e: Entry<K, V>, b: seq<Entry<K, V>>)
    ensures Others([e] + b, e.key) == Others(b, e.key)
  {
    assert ([e] + b)[1..] == b;
  }

  lemma {:induction false} OthersWithLast<K, V>(s: seq<Entry<K, V>>, e: Entry<K, V>)
    requires forall i :: 0 <= i < |s| ==> s[i].key != e.key
    ensures Others(s + [e], e.key) == s
  {
    OthersConcat(s, [e], e.key);
    OthersAll(s, e.key);
    assert Others([e], e.key) == [];
  }

  ghost predicate Has<K, V>(s: seq<Entry<K, V>>, k: K) { exists i :: 0 <= i < |s| && s[i].key == k }

  /** A new key that brings the size up to the limit plus the slack, and above the limit. */
  ghost predicate Prunes<K, V>(l: Limits, s: seq<Entry<K, V>>, op: Op<K, V>) {
    op.Insert? && !Has(s, op.key) && l.maxSize > 0 && |s| + 1 >= l.maxSize + l.elasticity && |s| >= l.maxSize
  }

  /** No operation touches the entries with other keys or their order, unless an insertion
      prunes; then exactly the most recent ones up to the limit stay, with the new one. */
  lemma {:induction false} OthersStay<K, V>(l: Limits, s: seq<Entry<K, V>>, op: Op<K, V>)
    requires DistinctKeys(s)
    ensures !Prunes(l, s, op) ==> Others(Apply(l, s, op), op.key) == Others(s, op.key)
    ensures Prunes(l, s, op) ==> Apply(l, s, op) == s[|s| + 1 - l.maxSize..] + [Entry(op.key, op.value)]
  {
    hide IndexOf;
    var i := IndexOf(s, op.key);
    if i >= 0 {
      OthersDrop(s, i);
      DropKeys(s, i);
      OthersAll(Without(s, i), op.key);
      OthersWithLast(Without(s, i), s[i]);
    } else {
      OthersAll(s, op.key);
      if op.Insert? {
        var e := Entry(op.key, op.value);
        OthersWithLast(s, e);
        assert Prunes(l, s, op) ==> (s + [e])[|s| + 1 - l.maxSize..] == s[|s| + 1 - l.maxSize..] + [e];
      }
    }
  }

  lemma {:induction false} DropKeys<K, V>(s: seq<Entry<K, V>>, i: nat)
    requires DistinctKeys(s) && i < |s|
    ensures forall j :: 0 <= j < |s| - 1 ==> Without(s, i)[j].key != s[i].key
  {
    WithoutAt(s, i);
  }

  /** What happens to the key itself: a removed key is gone, a used one is last. */
  lemma {:induction false} KeyMoves<K, V>(l: Limits, s: seq<Entry<K, V>>, op: Op<K, V>)
    requires DistinctKeys(s)
    ensures op.Remove? ==> Apply(l, s, op) == Others(s, op.key)
    ensures op.Get? && !Has(s, op.key) ==> Apply(l, s, op) == s
    ensures !op.Remove? && Has(s, op.key) ==>
              exists e :: e in s && e.key == op.key && Apply(l, s, op) == Others(s, op.key) + [e]
  {
    hide IndexOf;
    var i := IndexOf(s, op.key);
    if i >= 0 {
      OthersDrop(s, i);
      assert s[i] in s;
    } else {
      OthersAll(s, op.key);
    }
  }

  lemma {:induction false} OthersKeys<K, V>(s: seq<Entry<K, V>>, k: K, x: K)
    ensures Has(Others(s, k), x) <==> Has(s, x) && x != k
  {
    if s != [] {
      OthersKeys(s[1..], k, x);
      var first := if s[0].key == k then [] else [s[0]];
      HasConcat([s[0]], s[1..], x);
      HasConcat(first, Others(s[1..], k), x);
      assert s == [s[0]] + s[1..];
    }
  }

  lemma HasConcat<K, V>(a: seq<Entry<K, V>>, b: seq<Entry<K, V>>, x: K)
    ensures Has(a + b, x) <==> Has(a, x) || Has(b, x)
  {
    if Has(a, x) {
      var i :| 0 <= i < |a| && a[i].key == x;
      assert (a + b)[i].key == x;
    }
    if Has(b, x) {
      var i :| 0 <= i < |b| && b[i].key == x;
      assert (a + b)[|a| + i].key == x;
    }
  }

  /** After a removal a key is present exactly if it was before and is not the removed one. */
  lemma RemovedOnly<K, V>(l: Limits, s: seq<Entry<K, V>>, k: K, x: K)
    requires DistinctKeys(s)
    ensures Has(Apply(l, s, Op.Remove(k)), x) <==> Has(s, x) && x != k
  {
    KeyMoves(l, s, Op<K, V>.Remove(k));
    OthersKeys(s, k, x);
  }

  // ---------------------------------------------------------------- insertions only

  ghost predicate InsertsOnly<K, V>(ops: seq<Op<K, V>>) { forall i :: 0 <= i < |ops| ==> ops[i].Insert? }

  function Keys<K, V>(s: seq<Entry<K, V>>): (r: seq<K>)
    ensures |r| == |s| && forall i :: 0 <= i < |s| ==> r[i] == s[i].key
  {
    seq(|s|, (i: nat) requires i < |s| => s[i].key)
  }

  /** The last n elements, or all of them. */
  function Last<T>(n: nat, s: seq<T>): (r: seq<T>)
    ensures |r| <= |s|
  {
    if |s| <= n then s else s[|s| - n..]
  }

  const UNBOUNDED := Limits(0, 0)

  /** `ks` is the end of `ka`, and all of it unless the limit `m` was reached. */
  ghost predicate IsEnd<T>(m: nat, ks: seq<T>, ka: seq<T>) {
    |ks| <= |ka| && ks == ka[|ka| - |ks|..] && (|ks| < |ka| ==> |ks| >= m)
  }

  /** After any insertions a cache holds the most recently inserted keys, in order: the end of
      what an unbounded cache would hold, and at least `maxSize` of them if there are so many. */
  lemma {:induction false} HoldsAnEnd<K, V>(l: Limits, ops: seq<Op<K, V>>)
    requires l.maxSize > 0 && InsertsOnly(ops)
    ensures IsEnd(l.maxSize, Keys(After(l, ops)), Keys(After(UNBOUNDED, ops)))
    decreases |ops|
  {
    hide Apply, IsEnd, InsertsOnly, SizeOk;
    if ops == [] {
      NothingIsEnd<K>(l.maxSize);
      assert Keys(After(l, ops)) == [] && Keys(After(UNBOUNDED, ops)) == [];
    } else {
      var before, op := ops[..|ops| - 1], ops[|ops| - 1];
      InsertsBefore(ops);
      HoldsAnEnd(l, before);
      EveryHistoryByUse(UNBOUNDED, before);
      InsertBoth(l, After(l, before), After(UNBOUNDED, before), op);
    }
  }

  lemma NothingIsEnd<T>(m: nat)
    ensures IsEnd<T>(m, [], [])
  {
  }

  lemma InsertsBefore<K, V>(ops: seq<Op<K, V>>)
    requires InsertsOnly(ops) && ops != []
    ensures InsertsOnly(ops[..|ops| - 1]) && ops[|ops| - 1].Insert?
  {
  }

  lemma {:induction false} InsertBoth<K, V>(l: Limits, s: seq<Entry<K, V>>, all: seq<Entry<K, V>>, op: Op<K, V>)
    requires l.maxSize > 0 && op.Insert? && DistinctKeys(all) && IsEnd(l.maxSize, Keys(s), Keys(all))
    ensures IsEnd(l.maxSize, Keys(Apply(l, s, op)), Keys(Apply(UNBOUNDED, all, op)))
  {
    hide Apply, DistinctKeys, IndexOf, Touched, IsEnd, Pruned;
    SameIndex(l.maxSize, s, all, op.key);
    var i, j := IndexOf(s, op.key), IndexOf(all, op.key);
    KeysApply(l, s, op);
    KeysApply(UNBOUNDED, all, op);
    NotPruned(Keys(all) + [op.key]);
    var ks, ka := Keys(s), Keys(all);
    if i >= 0 {
      EndTouched(l.maxSize, ks, ka, j);
    } else if j >= 0 {
      EndBack(l, ks, ka, j);
    } else {
      EndPushed(l, ks, ka, op.key);
    }
  }

  lemma NotPruned<T>(ka: seq<T>)
    ensures Pruned(UNBOUNDED, ka) == ka
  {
  }

  lemma EndTouched<T>(m: nat, ks: seq<T>, ka: seq<T>, j: nat)
    requires IsEnd(m, ks, ka) && |ka| - |ks| <= j < |ka|
    ensures IsEnd(m, Touched(ks, j - (|ka| - |ks|)), Touched(ka, j))
  {
    TouchInEnd(ka, |ka| - |ks|, j);
  }

  lemma EndBack<T>(l: Limits, ks: seq<T>, ka: seq<T>, j: nat)
    requires l.maxSize > 0 && IsEnd(l.maxSize, ks, ka) && j < |ka| - |ks|
    ensures IsEnd(l.maxSize, Pruned(l, ks + [ka[j]]), Touched(ka, j))
  {
    hide Touched, Pruned;
    TouchBefore(ka, |ka| - |ks|, j);
    PruneEnd(l, ks + [ka[j]], Touched(ka, j));
  }

  lemma EndPushed<T>(l: Limits, ks: seq<T>, ka: seq<T>, k: T)
    requires l.maxSize > 0 && IsEnd(l.maxSize, ks, ka)
    ensures IsEnd(l.maxSize, Pruned(l, ks + [k]), ka + [k])
  {
    hide Pruned;
    assert (ka + [k])[|ka| - |ks|..] == ks + [k];
    PruneEnd(l, ks + [k], ka + [k]);
  }

  lemma PruneEnd<T>(l: Limits, ks: seq<T>, ka: seq<T>)
    requires |ks| <= |ka| && ks == ka[|ka| - |ks|..] && l.maxSize > 0 && (|ks| < |ka| ==> |ks| > l.maxSize)
    ensures IsEnd(l.maxSize, Pruned(l, ks), ka)
  {
  }

  /** An insertion, seen on the keys alone. */
  function InsertKey<K>(l: Limits, ks: seq<K>, i: int, k: K): seq<K>
    requires -1 <= i < |ks|
  {
    if i >= 0 then Touched(ks, i) else Pruned(l, ks + [k])
  }

  lemma {:induction false} KeysApply<K, V>(l: Limits, s: seq<Entry<K, V>>, op: Op<K, V>)
    requires op.Insert?
    ensures Keys(Apply(l, s, op)) == InsertKey(l, Keys(s), IndexOf(s, op.key), op.key)
  {
    hide IndexOf;
    var i := IndexOf(s, op.key);
    if i >= 0 {
      assert Keys(Touched(s, i)) == Touched(Keys(s), i);
    } else {
      var t := s + [Entry(op.key, op.value)];
      assert Keys(t) == Keys(s) + [op.key];
      assert Keys(Pruned(l, t)) == Pruned(l, Keys(t));
    }
  }

  /** A key of the end stands at the same place in it; a key not in the end, before it. */
  lemma {:induction false} SameIndex<K, V>(m: nat, s: seq<Entry<K, V>>, all: seq<Entry<K, V>>, k: K)
    requires DistinctKeys(all) && IsEnd(m, Keys(s), Keys(all))
    ensures var i, j, d := IndexOf(s, k), IndexOf(all, k), |all| - |s|;
            if j >= d then i == j - d else i == -1
    ensures |s| <= |all| && (IndexOf(all, k) >= 0 ==> Keys(all)[IndexOf(all, k)] == k)
  {
    hide IndexOf;
    var i, j, d := IndexOf(s, k), IndexOf(all, k), |all| - |s|;
    if j >= d {
      SameKey(m, s, all, j - d);
      assert s[j - d].key == k && i >= 0;
    }
    if i >= 0 {
      SameKey(m, s, all, i);
      assert j >= 0;
    }
  }

  lemma {:induction false} SameKey<K, V>(m: nat, s: seq<Entry<K, V>>, all: seq<Entry<K, V>>, x: nat)
    requires IsEnd(m, Keys(s), Keys(all)) && x < |s|
    ensures s[x].key == all[x + |all| - |s|].key
  {
    hide IsEnd;
    EndAt(m, Keys(s), Keys(all), x);
  }

  lemma EndAt<T>(m: nat, ks: seq<T>, ka: seq<T>, x: nat)
    requires IsEnd(m, ks, ka) && x < |ks|
    ensures |ks| <= |ka| && ks[x] == ka[x + |ka| - |ks|]
  {
    assert ka[|ka| - |ks|..][x] == ka[x + |ka| - |ks|];
  }

  lemma {:induction false} TouchInEnd<T>(ka: seq<T>, d: nat, j: nat)
    requires d <= j < |ka|
    ensures Touched(ka, j)[d..] == Touched(ka[d..], j - d)
  {
  }

  lemma {:induction false} TouchBefore<T>(ka: seq<T>, d: nat, j: nat)
    requires j < d <= |ka|
    ensures Touched(ka, j)[d - 1..] == ka[d..] + [ka[j]]
  {
  }

  /** A cache without slack holds exactly the maxSize most recently inserted keys. */
  lemma HoldsTheMostRecent<K, V>(m: nat, ops: seq<Op<K, V>>)
    requires m > 0 && InsertsOnly(ops)
    ensures Keys(After(Limits(m, 0), ops)) == Last(m, Keys(After(UNBOUNDED, ops)))
  {
    hide After;
    HoldsAnEnd(Limits(m, 0), ops);
    EveryHistoryBounded(Limits(m, 0), ops);
  }

  /** So a larger cache holds everything a smaller one does. */
  lemma {:induction false} LargerHoldsMore<K, V>(m: nat, n: nat, ops: seq<Op<K, V>>, k: K)
    requires 0 < m <= n && InsertsOnly(ops) && k in Keys(After(Limits(m, 0), ops))
    ensures k in Keys(After(Limits(n, 0), ops))
  {
    HoldsTheMostRecent(m, ops);
    HoldsTheMostRecent(n, ops);
  }
}
