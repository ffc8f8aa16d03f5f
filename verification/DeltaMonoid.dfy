/** The algebra of `accumulate`: a commutative monoid whose identity is `default_v`,
    and how a list of keyed deltas combines at one key. */
module DeltaMonoid {

  type Key = nat

  /** `zero` is what `default_v()` returns, `acc` is what `accumulate` computes. */
  datatype Monoid<!V> = Monoid(zero: V, acc: (V, V) -> V)

  // The laws are stated one instance at a time, so that the solver uses exactly the
  // instances the proofs below name.
  ghost predicate CommAt<V>(m: Monoid<V>, a: V, b: V) { m.acc(a, b) == m.acc(b, a) }

  ghost predicate AssocAt<V>(m: Monoid<V>, a: V, b: V, c: V) {
    m.acc(m.acc(a, b), c) == m.acc(a, m.acc(b, c))
  }

  ghost predicate UnitAt<V>(m: Monoid<V>, a: V) { m.acc(m.zero, a) == a }

  ghost predicate Lawful<V(!new)>(m: Monoid<V>) {
    && (forall a, b :: CommAt(m, a, b))
    && (forall a, b, c :: AssocAt(m, a, b, c))
    && (forall a :: UnitAt(m, a))
  }

  lemma Unit<V(!new)>(m: Monoid<V>, a: V)
    requires Lawful(m)
    ensures m.acc(m.zero, a) == a && m.acc(a, m.zero) == a
  {
    assert UnitAt(m, a) && CommAt(m, a, m.zero);
  }

  lemma Comm<V(!new)>(m: Monoid<V>, a: V, b: V)
    requires Lawful(m)
    ensures m.acc(a, b) == m.acc(b, a)
  {
    assert CommAt(m, a, b);
  }

  lemma Assoc<V(!new)>(m: Monoid<V>, a: V, b: V, c: V)
    requires Lawful(m)
    ensures m.acc(m.acc(a, b), c) == m.acc(a, m.acc(b, c))
  {
    assert AssocAt(m, a, b, c);
  }

  /** (a b) c == (a c) b: the last two deltas may be folded in either order. */
  lemma Swap<V(!new)>(m: Monoid<V>, a: V, b: V, c: V)
    requires Lawful(m)
    ensures m.acc(m.acc(a, b), c) == m.acc(m.acc(a, c), b)
  {
    Assoc(m, a, b, c);
    Comm(m, b, c);
    Assoc(m, a, c, b);
  }

  /** What one delta `x` addressed to key `t` contributes at key `k`. */
  function One<V>(m: Monoid<V>, t: Key, x: V, k: Key): V { if t == k then x else m.zero }

  /** The combination of every delta in `kv` addressed to `k`. */
  function At<V>(m: Monoid<V>, kv: seq<(Key, V)>, k: Key): V
  {
    if kv == [] then m.zero else m.acc(One(m, kv[0].0, kv[0].1, k), At(m, kv[1..], k))
  }

  lemma {:induction false} AtConcat<V(!new)>(m: Monoid<V>, a: seq<(Key, V)>, b: seq<(Key, V)>, k: Key)
    requires Lawful(m)
    ensures At(m, a + b, k) == m.acc(At(m, a, k), At(m, b, k))
  {
    if a == [] {
      assert a + b == b;
      Unit(m, At(m, b, k));
    } else {
      assert (a + b)[1..] == a[1..] + b;
      AtConcat(m, a[1..], b, k);
      Assoc(m, One(m, a[0].0, a[0].1, k), At(m, a[1..], k), At(m, b, k));
    }
  }

  lemma {:induction false} AtAbsent<V(!new)>(m: Monoid<V>, kv: seq<(Key, V)>, k: Key)
    requires Lawful(m)
    requires forall i :: 0 <= i < |kv| ==> kv[i].0 != k
    ensures At(m, kv, k) == m.zero
  {
    if kv != [] {
      AtAbsent(m, kv[1..], k);
      Unit(m, m.zero);
    }
  }

  /** `kv` lists the entries of `b`, each exactly once, in some order. */
  ghost predicate Lists<K(!new), V(!new)>(kv: seq<(K, V)>, b: map<K, V>) {
    && (forall i, j :: 0 <= i < j < |kv| ==> kv[i].0 != kv[j].0)
    && (forall i :: 0 <= i < |kv| ==> kv[i].0 in b && b[kv[i].0] == kv[i].1)
    && (forall k :: k in b ==> exists i :: 0 <= i < |kv| && kv[i].0 == k)
  }

  lemma {:induction false} ListsOneMore<K(!new), V(!new)>(kv: seq<(K, V)>, m: map<K, V>, k: K, v: V)
    requires Lists(kv, m) && k !in m
    ensures Lists(kv + [(k, v)], m[k := v])
  {
    var kv', m' := kv + [(k, v)], m[k := v];
    forall x | x in m'
      ensures exists i :: 0 <= i < |kv'| && kv'[i].0 == x
    {
      if x == k {
        assert kv'[|kv|].0 == x;
      } else {
        var i :| 0 <= i < |kv| && kv[i].0 == x;
        assert kv'[i].0 == x;
      }
    }
  }

  function Lookup<V>(m: Monoid<V>, b: map<Key, V>, k: Key): V { if k in b then b[k] else m.zero }

  /** A serialized table carries, at every key, exactly what the table held there. */
  lemma ListsAt<V(!new)>(m: Monoid<V>, kv: seq<(Key, V)>, b: map<Key, V>, k: Key)
    requires Lawful(m) && Lists(kv, b)
    ensures At(m, kv, k) == Lookup(m, b, k)
  {
    if k in b {
      var i :| 0 <= i < |kv| && kv[i].0 == k;
      AtOnce(m, kv, i);
    } else {
      AtAbsent(m, kv, k);
    }
  }

  lemma {:induction false} AtOnce<V(!new)>(m: Monoid<V>, kv: seq<(Key, V)>, i: nat)
    requires Lawful(m) && i < |kv|
    requires forall j :: 0 <= j < |kv| && j != i ==> kv[j].0 != kv[i].0
    ensures At(m, kv, kv[i].0) == kv[i].1
  {
    if i == 0 {
      AtAbsent(m, kv[1..], kv[0].0);
      Unit(m, kv[0].1);
    } else {
      AtOnce(m, kv[1..], i - 1);
      Unit(m, kv[i].1);
    }
  }

  /** The same delta for every target: what a g_func loop over unweighted links appends. */
  function Spread<V>(targets: seq<Key>, x: V): seq<(Key, V)> {
    if targets == [] then [] else [(targets[0], x)] + Spread(targets[1..], x)
  }

  lemma {:induction false} SpreadAt<V>(targets: seq<Key>, x: V)
    ensures |Spread(targets, x)| == |targets|
    ensures forall i :: 0 <= i < |targets| ==> Spread(targets, x)[i] == (targets[i], x)
  {
    if targets != [] {
      SpreadAt(targets[1..], x);
    }
  }
}
