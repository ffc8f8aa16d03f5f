/** Facts about sequences and sets that several modules share. */
module Collections {

  datatype Option<T> = None | Some(value: T)

  ghost predicate NoDup<T>(s: seq<T>) { forall i, j :: 0 <= i < j < |s| ==> s[i] != s[j] }

  /** The sequence without its element at `i`. */
  function Without<T>(s: seq<T>, i: nat): (r: seq<T>)
    requires i < |s|
    ensures |r| == |s| - 1
  {
    s[..i] + s[i + 1..]
  }

  lemma WithoutAt<T>(s: seq<T>, i: nat)
    requires i < |s|
    ensures forall j :: 0 <= j < |s| - 1 ==> Without(s, i)[j] == s[if j < i then j else j + 1]
  {
  }

  lemma WithoutElements<T>(s: seq<T>, i: nat)
    requires i < |s|
    ensures multiset(Without(s, i)) + multiset{s[i]} == multiset(s)
  {
    assert s == s[..i] + ([s[i]] + s[i + 1..]);
  }

  lemma Cancel<T>(x: multiset<T>, y: multiset<T>, e: T)
    requires x + multiset{e} == y + multiset{e}
    ensures x == y
  {
    assert forall z :: x[z] == (x + multiset{e})[z] - multiset{e}[z] && y[z] == (y + multiset{e})[z] - multiset{e}[z];
  }

  lemma SmallMod(x: nat, m: nat)
    requires x < m
    ensures x % m == x
  {
  }

  lemma {:induction false} MulGap(m: nat, p: nat, q: nat)
    requires p < q
    ensures m * p + m <= m * q
  {
    assert m * q == m * (q - 1) + m;
    if p < q - 1 {
      MulGap(m, p, q - 1);
    }
  }

  lemma Regroup<T>(a: seq<T>, b: seq<T>, c: seq<T>)
    ensures a + (b + c) == a + b + c
  {
  }

  lemma SubsetSize<T>(a: set<T>, b: set<T>)
    requires a <= b
    ensures |a| <= |b|
  {
    assert b == a + (b - a);
  }

  lemma {:induction false} NoDupSize<T>(s: seq<T>, b: set<T>)
    requires NoDup(s) && forall i :: 0 <= i < |s| ==> s[i] in b
    ensures |s| <= |b|
    decreases |s|
  {
    if s != [] {
      var last := s[|s| - 1];
      NoDupSize(s[..|s| - 1], b - {last});
    }
  }

  lemma {:induction false} ElementsSize<T>(s: seq<T>)
    ensures |set x | x in s| <= |s|
  {
    if s != [] {
      ElementsSize(s[1..]);
      assert (set x | x in s) == (set x | x in s[1..]) + {s[0]};
    }
  }

  lemma SameSize<T>(a: set<T>, b: set<T>)
    requires a <= b && |a| == |b|
    ensures a == b
  {
    assert b == a + (b - a);
    assert |b - a| == 0;
  }

  /** The sum of `f` over a set. */
  ghost function SumOver<T(!new)>(s: set<T>, f: T -> real): real {
    if s == {} then 0.0 else var x :| x in s; f(x) + SumOver(s - {x}, f)
  }

  /** Any element can be taken first. */
  lemma {:induction false} SumRemove<T(!new)>(s: set<T>, f: T -> real, p: T)
    requires p in s
    ensures SumOver(s, f) == f(p) + SumOver(s - {p}, f)
    decreases s
  {
    var x :| x in s && SumOver(s, f) == f(x) + SumOver(s - {x}, f);
    if x != p {
      SumRemove(s - {x}, f, p);
      SumRemove(s - {p}, f, x);
      assert s - {x} - {p} == s - {p} - {x};
    }
  }

  lemma {:induction false} SumScaled<T(!new)>(s: set<T>, f: T -> real, g: T -> real, a: real)
    requires forall x :: x in s ==> f(x) == a * g(x)
    ensures SumOver(s, f) == a * SumOver(s, g)
    decreases s
  {
    if s == {} {
      assert SumOver(s, f) == 0.0 && SumOver(s, g) == 0.0;
    } else {
      hide SumOver;
      var p :| p in s;
      SumRemove(s, f, p);
      SumRemove(s, g, p);
      SumScaled(s - {p}, f, g, a);
      MulDistributes(a, g(p), SumOver(s - {p}, g));
    }
  }

  lemma MulDistributes(a: real, x: real, y: real)
    ensures a * (x + y) == a * x + a * y
  {
  }

  lemma {:induction false} SumOnes<T(!new)>(s: set<T>, f: T -> real)
    requires forall x :: x in s ==> f(x) == 1.0
    ensures SumOver(s, f) == |s| as real
    decreases s
  {
    if s != {} {
      var p :| p in s;
      SumRemove(s, f, p);
      SumOnes(s - {p}, f);
    }
  }
}
