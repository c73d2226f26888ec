/** Facts about sequences shared by the models. */
module Seqs {

  ghost predicate Distinct<T>(s: seq<T>) {
    forall i, j :: 0 <= i < j < |s| ==> s[i] != s[j]
  }

  /** `order` lists every element of `keys` exactly once. */
  ghost predicate IsOrder<T>(order: seq<T>, keys: set<T>) {
    Distinct(order) && (forall x | x in order :: x in keys) && (forall x | x in keys :: x in order)
  }

  /** `s` with the first occurrence of `x` taken out. */
  function Without<T(==)>(s: seq<T>, x: T): seq<T> {
    if s == [] then [] else if s[0] == x then s[1..] else [s[0]] + Without(s[1..], x)
  }

  lemma {:induction false} WithoutAt<T>(s: seq<T>, i: nat)
    requires Distinct(s) && i < |s|
    ensures Without(s, s[i]) == s[..i] + s[i + 1..]
  {
    if i > 0 {
      assert s[0] != s[i];
      WithoutAt(s[1..], i - 1);
      assert s[1..][..i - 1] == s[1..i];
      assert s[1..][i - 1 + 1..] == s[i + 1..];
      assert s[..i] == [s[0]] + s[1..i];
    }
  }

  lemma {:induction false} WithoutCount<T>(s: seq<T>, x: T)
    ensures multiset(Without(s, x)) == multiset(s) - multiset{x}
  {
    if s != [] {
      assert s == [s[0]] + s[1..];
      WithoutCount(s[1..], x);
    }
  }

  lemma {:induction false} WithoutAbsent<T>(s: seq<T>, x: T)
    requires x !in s
    ensures Without(s, x) == s
  {
    if s != [] {
      assert s == [s[0]] + s[1..];
      WithoutAbsent(s[1..], x);
    }
  }

  /** Elements that each occur at most once are at distinct places. */
  lemma CountDistinct<T>(s: seq<T>)
    requires forall x | x in s :: multiset(s)[x] <= 1
    ensures Distinct(s)
  {
    forall i, j | 0 <= i < j < |s| ensures s[i] != s[j] {
      assert s == s[..i] + [s[i]] + s[i + 1..j] + [s[j]] + s[j + 1..];
      assert s[i] in s;
    }
  }

  /** An order of a finite set has as many entries as the set. */
  lemma {:induction false} OrderLength<T>(order: seq<T>, keys: set<T>)
    requires IsOrder(order, keys)
    ensures |order| == |keys|
  {
    if order == [] {
      assert keys == {};
    } else {
      var n := |order| - 1;
      assert order == order[..n] + [order[n]];
      OrderLength(order[..n], keys - {order[n]});
    }
  }

  lemma {:induction false} OrderExists<T>(keys: set<T>) returns (order: seq<T>)
    ensures IsOrder(order, keys)
  {
    if keys == {} {
      order := [];
    } else {
      var x :| x in keys;
      var rest := OrderExists(keys - {x});
      order := rest + [x];
    }
  }
}
