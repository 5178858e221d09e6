/**
 * Iterating over an ordered set: elements carry a code, and codes are compared position by
 * position, a proper prefix first. This is the order of `BTreeMap` and `BTreeSet` keys.
 */
module Ascending {

  predicate Less(a: seq<nat>, b: seq<nat>) {
    |b| > 0 && (|a| == 0 || a[0] < b[0] || (a[0] == b[0] && Less(a[1..], b[1..])))
  }

  lemma {:induction false} LessIsTotal(a: seq<nat>, b: seq<nat>)
    ensures a == b || Less(a, b) || Less(b, a)
    ensures !(Less(a, b) && Less(b, a)) && !Less(a, a)
  {
    if |a| > 0 && |b| > 0 {
      LessIsTotal(a[1..], b[1..]);
      LessIsTotal(a[1..], a[1..]);
      assert a == [a[0]] + a[1..] && b == [b[0]] + b[1..];
    } else if |a| > 0 {
      LessIsTotal(a[1..], a[1..]);
    }
  }

  lemma {:induction false} LessIsTransitive(a: seq<nat>, b: seq<nat>, c: seq<nat>)
    requires Less(a, b) && Less(b, c)
    ensures Less(a, c)
  {
    if |a| > 0 && a[0] == b[0] && b[0] == c[0] {
      LessIsTransitive(a[1..], b[1..], c[1..]);
    }
  }

  ghost predicate Injective<T(!new)>(code: T -> seq<nat>) {
    forall x, y :: code(x) == code(y) ==> x == y
  }

  predicate IsLeast<T(==)>(x: T, s: set<T>, code: T -> seq<nat>) {
    x in s && forall y :: y in s && y != x ==> Less(code(x), code(y))
  }

  lemma {:induction false} LeastExists<T(!new)>(s: set<T>, code: T -> seq<nat>) returns (x: T)
    requires s != {} && Injective(code)
    ensures IsLeast(x, s, code)
    decreases |s|
  {
    var first :| first in s;
    var rest := s - {first};
    assert forall y :: y in s && y != first ==> y in rest;
    if rest == {} {
      x := first;
    } else {
      var y := LeastExists(rest, code);
      LessIsTotal(code(first), code(y));
      assert Less(code(first), code(y)) || Less(code(y), code(first));
      x := if Less(code(first), code(y)) then first else y;
      forall z | z in s && z != x
        ensures Less(code(x), code(z))
      {
        if z != first && z != y {
          assert Less(code(y), code(z));
          if x == first {
            LessIsTransitive(code(first), code(y), code(z));
          }
        }
      }
    }
  }

  lemma LeastIsUnique<T(!new)>(s: set<T>, code: T -> seq<nat>, x: T, y: T)
    requires IsLeast(x, s, code) && IsLeast(y, s, code)
    ensures x == y
  {
    LessIsTotal(code(x), code(y));
  }

  lemma LeastIsThere<T(!new)>(s: set<T>, code: T -> seq<nat>)
    requires s != {} && Injective(code)
    ensures exists x :: IsLeast(x, s, code)
    ensures forall x, y :: IsLeast(x, s, code) && IsLeast(y, s, code) ==> x == y
  {
    var x := LeastExists(s, code);
    forall x, y | IsLeast(x, s, code) && IsLeast(y, s, code)
      ensures x == y
    {
      LeastIsUnique(s, code, x, y);
    }
  }

  function Least<T(==,!new)>(s: set<T>, code: T -> seq<nat>): (x: T)
    requires s != {} && Injective(code)
    ensures IsLeast(x, s, code)
  {
    LeastIsThere(s, code);
    var x :| IsLeast(x, s, code);
    x
  }

  /** The elements from the least upwards. */
  function InOrder<T(==,!new)>(s: set<T>, code: T -> seq<nat>): (r: seq<T>)
    requires Injective(code)
    ensures |r| == |s| && forall x :: x in r <==> x in s
    decreases |s|
  {
    if s == {} then []
    else
      var x := Least(s, code);
      [x] + InOrder(s - {x}, code)
  }

  lemma {:induction false} InOrderIsDistinct<T(!new)>(s: set<T>, code: T -> seq<nat>)
    requires Injective(code)
    ensures forall i, j :: 0 <= i < j < |s| ==> InOrder(s, code)[i] != InOrder(s, code)[j]
    decreases |s|
  {
    if s != {} {
      var x := Least(s, code);
      InOrderIsDistinct(s - {x}, code);
      assert x !in InOrder(s - {x}, code);
    }
  }

  /** Every element is less than all behind it. */
  lemma {:induction false} InOrderAscends<T(!new)>(s: set<T>, code: T -> seq<nat>, i: nat, j: nat)
    requires Injective(code) && i < j < |s|
    ensures Less(code(InOrder(s, code)[i]), code(InOrder(s, code)[j]))
    decreases |s|
  {
    var x := Least(s, code);
    var rest := InOrder(s - {x}, code);
    if i == 0 {
      assert InOrder(s, code)[j] == rest[j - 1] && rest[j - 1] in rest;
    } else {
      InOrderAscends(s - {x}, code, i - 1, j - 1);
    }
  }
}
