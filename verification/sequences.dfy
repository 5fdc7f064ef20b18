/** Folds over sequences whose result does not depend on the order of the elements. */
module Sequences {

  function Sum<T>(s: seq<T>, f: T -> nat): nat {
    if s == [] then 0 else Sum(s[..|s| - 1], f) + f(s[|s| - 1])
  }

  function Map<T, U>(s: seq<T>, f: T -> U): (r: seq<U>)
    ensures |r| == |s|
  {
    if s == [] then [] else Map(s[..|s| - 1], f) + [f(s[|s| - 1])]
  }

  function Filter<T>(s: seq<T>, p: T -> bool): seq<T> {
    if s == [] then []
    else Filter(s[..|s| - 1], p) + Kept(s[|s| - 1], p)
  }

  lemma FilterOfOne<T>(x: T, p: T -> bool)
    ensures Filter([x], p) == Kept(x, p)
  {
    assert [x][..0] == [];
    assert Filter([x][..0], p) + Kept(x, p) == Kept(x, p);
  }

  lemma {:induction false} MapAt<T, U>(s: seq<T>, f: T -> U, i: nat)
    requires i < |s|
    ensures Map(s, f)[i] == f(s[i])
  {
    if i < |s| - 1 {
      MapAt(s[..|s| - 1], f, i);
    }
  }

  lemma {:induction false} FilterMembers<T>(s: seq<T>, p: T -> bool)
    ensures forall x :: x in Filter(s, p) <==> x in s && p(x)
  {
    if s != [] {
      FilterMembers(s[..|s| - 1], p);
      assert s == s[..|s| - 1] + [s[|s| - 1]];
    }
  }

  /** `b` without the element at `k`, next to a sequence that ends with that element. */
  lemma {:induction false} SumWithout<T>(b: seq<T>, k: nat, f: T -> nat)
    requires k < |b|
    ensures Sum(b, f) == Sum(b[..k] + b[k + 1..], f) + f(b[k])
  {
    var n := |b| - 1;
    if k == n {
      assert b[..k] + b[k + 1..] == b[..n];
    } else {
      SumWithout(b[..n], k, f);
      var w := b[..k] + b[k + 1..];
      assert w[..|w| - 1] == b[..n][..k] + b[..n][k + 1..];
    }
  }

  lemma MapOfOneMore<T, U>(s: seq<T>, x: T, f: T -> U)
    ensures Map(s + [x], f) == Map(s, f) + [f(x)]
  {
    assert (s + [x])[..|s|] == s;
  }

  lemma {:induction false} MapWithout<T, U>(b: seq<T>, k: nat, f: T -> U)
    requires k < |b|
    ensures multiset(Map(b, f)) == multiset(Map(b[..k] + b[k + 1..], f)) + multiset{f(b[k])}
  {
    var n := |b| - 1;
    MapOfOneMore(b[..n], b[n], f);
    assert b == b[..n] + [b[n]];
    hide Map;
    if k == n {
      assert b[..k] + b[k + 1..] == b[..n];
    } else {
      MapWithout(b[..n], k, f);
      var w, v := b[..k] + b[k + 1..], b[..n][..k] + b[..n][k + 1..];
      assert w == v + [b[n]];
      MapOfOneMore(v, b[n], f);
    }
  }

  function Kept<T>(x: T, p: T -> bool): seq<T> {
    if p(x) then [x] else []
  }

  lemma {:induction false} FilterWithout<T>(b: seq<T>, k: nat, p: T -> bool)
    requires k < |b|
    ensures multiset(Filter(b, p)) == multiset(Filter(b[..k] + b[k + 1..], p)) + multiset(Kept(b[k], p))
  {
    hide Kept;
    var n := |b| - 1;
    assert Filter(b, p) == Filter(b[..n], p) + Kept(b[n], p);
    if k == n {
      assert b[..k] + b[k + 1..] == b[..n];
    } else {
      FilterWithout(b[..n], k, p);
      var w := b[..k] + b[k + 1..];
      assert w[..|w| - 1] == b[..n][..k] + b[..n][k + 1..] && w[|w| - 1] == b[n];
      assert Filter(w, p) == Filter(w[..|w| - 1], p) + Kept(b[n], p);
    }
  }

  lemma MultisetWithout<T>(s: seq<T>, k: nat)
    requires k < |s|
    ensures multiset(s) == multiset(s[..k] + s[k + 1..]) + multiset{s[k]}
  {
    assert s == s[..k] + ([s[k]] + s[k + 1..]);
    assert multiset(s[..k] + s[k + 1..]) == multiset(s[..k]) + multiset(s[k + 1..]);
    assert multiset([s[k]] + s[k + 1..]) == multiset{s[k]} + multiset(s[k + 1..]);
  }

  lemma MultisetOfFirst<T>(s: seq<T>)
    requires s != []
    ensures multiset(s) == multiset(s[1..]) + multiset{s[0]}
  {
    assert s == [s[0]] + s[1..];
  }

  lemma MultisetOfLast<T>(s: seq<T>)
    requires s != []
    ensures multiset(s) == multiset(s[..|s| - 1]) + multiset{s[|s| - 1]}
  {
    assert s == s[..|s| - 1] + [s[|s| - 1]];
  }

  lemma MultisetCancel<T>(a: multiset<T>, b: multiset<T>, x: T)
    requires a + multiset{x} == b + multiset{x}
    ensures a == b
  {
    forall y
      ensures a[y] == b[y]
    {
      assert (a + multiset{x})[y] == (b + multiset{x})[y];
    }
  }

  /** The place in `b` of the last element of a permutation `a`, and what is left of each without it. */
  lemma LastOfPermutation<T>(a: seq<T>, b: seq<T>) returns (k: nat)
    requires multiset(a) == multiset(b) && a != []
    ensures k < |b| && b[k] == a[|a| - 1]
    ensures multiset(a[..|a| - 1]) == multiset(b[..k] + b[k + 1..])
  {
    var x := a[|a| - 1];
    MembersOfPermutation(a, b);
    assert x in b;
    k :| 0 <= k < |b| && b[k] == x;
    MultisetWithout(b, k);
    MultisetOfLast(a);
    MultisetCancel(multiset(a[..|a| - 1]), multiset(b[..k] + b[k + 1..]), x);
  }

  lemma NothingPermutes<T>(a: seq<T>, b: seq<T>)
    requires multiset(a) == multiset(b) && a == []
    ensures b == []
  {
    assert |multiset(a)| == |a| && |multiset(b)| == |b|;
  }

  lemma {:induction false} SumOfPermutation<T>(a: seq<T>, b: seq<T>, f: T -> nat)
    requires multiset(a) == multiset(b)
    ensures Sum(a, f) == Sum(b, f)
  {
    if a == [] {
      NothingPermutes(a, b);
    } else {
      var k := LastOfPermutation(a, b);
      SumOfPermutation(a[..|a| - 1], b[..k] + b[k + 1..], f);
      SumWithout(b, k, f);
    }
  }

  lemma {:induction false} MapOfPermutation<T, U>(a: seq<T>, b: seq<T>, f: T -> U)
    requires multiset(a) == multiset(b)
    ensures multiset(Map(a, f)) == multiset(Map(b, f))
  {
    if a == [] {
      NothingPermutes(a, b);
    } else {
      var k := LastOfPermutation(a, b);
      MapOfPermutation(a[..|a| - 1], b[..k] + b[k + 1..], f);
      MapWithout(b, k, f);
    }
  }

  lemma {:induction false} FilterOfPermutation<T>(a: seq<T>, b: seq<T>, p: T -> bool)
    requires multiset(a) == multiset(b)
    ensures multiset(Filter(a, p)) == multiset(Filter(b, p))
  {
    if a == [] {
      NothingPermutes(a, b);
    } else {
      var k := LastOfPermutation(a, b);
      FilterOfPermutation(a[..|a| - 1], b[..k] + b[k + 1..], p);
      FilterWithout(b, k, p);
    }
  }

  lemma MembersOfPermutation<T>(a: seq<T>, b: seq<T>)
    requires multiset(a) == multiset(b)
    ensures |a| == |b|
    ensures forall x :: x in a <==> x in b
  {
    assert |multiset(a)| == |a| && |multiset(b)| == |b|;
    forall x
      ensures x in a <==> x in b
    {
      assert x in a <==> x in multiset(a);
      assert x in b <==> x in multiset(b);
    }
  }
}
