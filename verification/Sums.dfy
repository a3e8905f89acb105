/** Sums over sequences, and what does not depend on the order of a sequence. */
module Sums {
  function Sum<T>(f: T -> nat, s: seq<T>): nat {
    if s == [] then 0 else f(s[0]) + Sum(f, s[1..])
  }

  lemma {:induction false} SumAppend<T>(f: T -> nat, a: seq<T>, b: seq<T>)
    ensures Sum(f, a + b) == Sum(f, a) + Sum(f, b)
    decreases |a|
  {
    if a == [] {
      assert a + b == b;
    } else {
      assert (a + b)[1..] == a[1..] + b;
      SumAppend(f, a[1..], b);
    }
  }

  lemma SumOne<T>(f: T -> nat, x: T)
    ensures Sum(f, [x]) == f(x)
  {
    assert [x][1..] == [];
  }

  /** A prefix never sums to more than the whole. */
  lemma SumPrefix<T>(f: T -> nat, s: seq<T>, k: nat)
    requires k <= |s|
    ensures Sum(f, s[..k]) <= Sum(f, s)
  {
    assert s == s[..k] + s[k..];
    SumAppend(f, s[..k], s[k..]);
  }

  /** `b` is `a` in another order. */
  ghost predicate Reordering<T>(a: seq<T>, b: seq<T>) {
    multiset(a) == multiset(b)
  }

  lemma Middle<T>(left: seq<T>, x: T, right: seq<T>)
    ensures multiset(left + right) == multiset(left + [x] + right) - multiset{x}
  {
    assert left + [x] + right == left + ([x] + right);
    assert multiset(left + [x] + right) == multiset(left) + multiset{x} + multiset(right);
  }

  lemma WithoutFirst<T>(a: seq<T>, left: seq<T>, right: seq<T>)
    requires a != [] && Reordering(a, left + [a[0]] + right)
    ensures Reordering(a[1..], left + right)
  {
    Middle(left, a[0], right);
    Middle([], a[0], a[1..]);
    assert [] + [a[0]] + a[1..] == a && [] + a[1..] == a[1..];
  }

  lemma Position<T>(a: seq<T>, b: seq<T>) returns (k: nat)
    requires a != [] && Reordering(a, b)
    ensures k < |b| && b[k] == a[0]
  {
    assert a[0] in multiset(a);
    assert a[0] in b;
    k :| 0 <= k < |b| && b[k] == a[0];
  }

  /** Taking an element out of the middle of a reordering. */
  lemma SplitAt<T>(a: seq<T>, b: seq<T>) returns (left: seq<T>, right: seq<T>)
    requires a != [] && Reordering(a, b)
    ensures b == left + [a[0]] + right && Reordering(a[1..], left + right)
  {
    var k := Position(a, b);
    left, right := b[..k], b[k + 1..];
    assert b == left + [a[0]] + right;
    WithoutFirst(a, left, right);
  }

  lemma {:induction false} SumIgnoresOrder<T>(f: T -> nat, a: seq<T>, b: seq<T>)
    requires Reordering(a, b)
    ensures Sum(f, a) == Sum(f, b)
    decreases |a|
  {
    if a == [] {
      assert |multiset(b)| == 0;
    } else {
      var left, right := SplitAt(a, b);
      SumIgnoresOrder(f, a[1..], left + right);
      SumAppend(f, left + [a[0]], right);
      SumAppend(f, left, [a[0]]);
      SumOne(f, a[0]);
      SumAppend(f, left, right);
    }
  }

  ghost predicate Every<T>(p: T -> bool, s: seq<T>) {
    forall i :: 0 <= i < |s| ==> p(s[i])
  }

  lemma EveryAppend<T>(p: T -> bool, a: seq<T>, b: seq<T>)
    ensures Every(p, a + b) <==> Every(p, a) && Every(p, b)
  {
    if Every(p, a + b) {
      forall i | 0 <= i < |a| ensures p(a[i]) { assert (a + b)[i] == a[i]; }
      forall i | 0 <= i < |b| ensures p(b[i]) { assert (a + b)[|a| + i] == b[i]; }
    }
  }

  lemma EveryIgnoresOrder<T>(p: T -> bool, a: seq<T>, b: seq<T>)
    requires Reordering(a, b)
    ensures Every(p, a) <==> Every(p, b)
  {
    forall i | 0 <= i < |a| ensures exists j :: 0 <= j < |b| && b[j] == a[i] { assert a[i] in multiset(b); }
    forall j | 0 <= j < |b| ensures exists i :: 0 <= i < |a| && a[i] == b[j] { assert b[j] in multiset(a); }
  }
}
