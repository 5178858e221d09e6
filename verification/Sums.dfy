/** Finite sums over sequences of integers, in the shapes the other modules need. */
module Sums {
  import opened Words

  lemma SplitLast<T>(a: seq<T>, b: seq<T>)
    requires |b| > 0
    ensures b == b[..|b| - 1] + [b[|b| - 1]]
    ensures a + b == a + b[..|b| - 1] + [b[|b| - 1]]
  {
  }

  /** The sum of all elements. */
  function Sum(s: seq<int>): int {
    if |s| == 0 then 0 else Sum(s[..|s| - 1]) + s[|s| - 1]
  }

  /** The sum of the elements whose index lies in `at`. */
  function SumIn(s: seq<int>, at: set<nat>): int {
    if |s| == 0 then 0
    else SumIn(s[..|s| - 1], at) + if |s| - 1 in at then s[|s| - 1] else 0
  }

  function Min(a: int, b: int): int {
    if a <= b then a else b
  }

  function Indices(n: nat): (r: set<nat>)
    ensures forall j: nat :: j in r <==> j < n
    ensures |r| == n
  {
    if n == 0 then {} else Indices(n - 1) + {n - 1}
  }

  lemma OneMoreIndex(before: set<nat>, after: set<nat>, n: nat, more: bool)
    requires n !in before
    requires forall i: nat :: i in after <==> i in before || (i == n && more)
    ensures |after| == |before| + if more then 1 else 0
  {
    if more {
      assert after == before + {n};
    } else {
      assert after == before;
    }
  }

  lemma {:induction false} SubsetSize<T>(a: set<T>, b: set<T>)
    requires a <= b
    ensures |a| <= |b|
  {
    assert b == a + (b - a);
  }

  lemma SubsetOfSameSize<T>(a: set<T>, b: set<T>)
    requires a <= b && |a| == |b|
    ensures a == b
  {
    assert b == a + (b - a);
  }

  lemma {:induction false} SumLinear(a: seq<int>, b: seq<int>, r: seq<int>, p: int, q: int)
    requires |a| == |b| == |r|
    requires forall j :: 0 <= j < |r| ==> r[j] == p * a[j] + q * b[j]
    ensures Sum(r) == p * Sum(a) + q * Sum(b)
  {
    var n := |r|;
    if n > 0 {
      SumLinear(a[..n - 1], b[..n - 1], r[..n - 1], p, q);
      DistributeLeft(p, Sum(a[..n - 1]), a[n - 1]);
      DistributeLeft(q, Sum(b[..n - 1]), b[n - 1]);
    }
  }

  lemma {:induction false} SumMonotone(a: seq<int>, b: seq<int>)
    requires |a| == |b|
    requires forall j :: 0 <= j < |a| ==> a[j] <= b[j]
    ensures Sum(a) <= Sum(b)
    ensures Sum(a) == Sum(b) ==> a == b
  {
    var n := |a|;
    if n > 0 {
      SumMonotone(a[..n - 1], b[..n - 1]);
      assert a == a[..n - 1] + [a[n - 1]] && b == b[..n - 1] + [b[n - 1]];
    }
  }

  lemma {:induction false} SumBounds(s: seq<int>, lo: int, hi: int)
    requires forall j :: 0 <= j < |s| ==> lo <= s[j] <= hi
    ensures |s| * lo <= Sum(s) <= |s| * hi
  {
    var n := |s|;
    if n > 0 {
      SumBounds(s[..n - 1], lo, hi);
      assert n * lo == (n - 1) * lo + lo && n * hi == (n - 1) * hi + hi;
    }
  }

  lemma {:induction false} SumUpdate(s: seq<int>, i: nat, x: int)
    requires i < |s|
    ensures Sum(s[i := x]) == Sum(s) - s[i] + x
  {
    var n := |s|;
    if i == n - 1 {
      assert s[i := x][..n - 1] == s[..n - 1];
    } else {
      SumUpdate(s[..n - 1], i, x);
      assert s[i := x][..n - 1] == s[..n - 1][i := x];
    }
  }

  lemma {:induction false} SumAppend(a: seq<int>, b: seq<int>)
    ensures Sum(a + b) == Sum(a) + Sum(b)
  {
    if |b| == 0 {
      assert a + b == a;
    } else {
      SumAppend(a, b[..|b| - 1]);
      assert (a + b)[..|a + b| - 1] == a + b[..|b| - 1];
    }
  }

  lemma {:induction false} SumInAll(s: seq<int>, at: set<nat>)
    requires forall j: nat :: j < |s| ==> j in at || s[j] == 0
    ensures SumIn(s, at) == Sum(s)
  {
    if |s| > 0 {
      SumInAll(s[..|s| - 1], at);
    }
  }

  lemma {:induction false} SumInDisjoint(s: seq<int>, a: set<nat>, b: set<nat>)
    requires a !! b
    ensures SumIn(s, a + b) == SumIn(s, a) + SumIn(s, b)
  {
    if |s| > 0 {
      SumInDisjoint(s[..|s| - 1], a, b);
    }
  }

  lemma Distribute(a: int, b: int, x: int)
    ensures (a + b) * x == a * x + b * x
  {
  }

  /** A lower bound on the chosen elements bounds their sum. */
  lemma {:induction false} SumInAtLeast(s: seq<int>, at: set<nat>, x: int)
    requires at <= Indices(|s|)
    requires forall j :: j in at ==> x <= s[j]
    ensures |at| * x <= SumIn(s, at)
  {
    var n := |s|;
    if n == 0 {
      assert at == {};
    } else {
      var rest := at - {n - 1};
      SumInSame(s[..n - 1], at, rest);
      SumInAtLeast(s[..n - 1], rest, x);
      if n - 1 in at {
        assert at == rest + {n - 1};
        Distribute(|rest|, 1, x);
      } else {
        assert at == rest;
      }
    }
  }

  /** An upper bound on the chosen elements bounds their sum. */
  lemma {:induction false} SumInAtMost(s: seq<int>, at: set<nat>, x: int)
    requires at <= Indices(|s|)
    requires forall j :: j in at ==> s[j] <= x
    ensures SumIn(s, at) <= |at| * x
  {
    var n := |s|;
    if n == 0 {
      assert at == {};
    } else {
      var rest := at - {n - 1};
      SumInSame(s[..n - 1], at, rest);
      SumInAtMost(s[..n - 1], rest, x);
      if n - 1 in at {
        assert at == rest + {n - 1};
        Distribute(|rest|, 1, x);
      } else {
        assert at == rest;
      }
    }
  }

  lemma {:induction false} SumInSame(s: seq<int>, a: set<nat>, b: set<nat>)
    requires forall j: nat :: j < |s| ==> (j in a <==> j in b)
    ensures SumIn(s, a) == SumIn(s, b)
  {
    if |s| > 0 {
      SumInSame(s[..|s| - 1], a, b);
    }
  }

  /** `r` is `s` with the elements at `hit` lowered by one. */
  predicate IsLowered(s: seq<int>, r: seq<int>, hit: set<nat>) {
    && |s| == |r|
    && (forall j: nat :: j < |s| ==> r[j] == s[j] - if j in hit then 1 else 0)
    && (forall j :: j in hit ==> j < |s|)
  }

  lemma LoweredFront(s: seq<int>, r: seq<int>, hit: set<nat>)
    requires IsLowered(s, r, hit) && |s| > 0
    ensures IsLowered(s[..|s| - 1], r[..|s| - 1], hit - {|s| - 1})
  {
  }

  /** Lowering the elements at `hit` by one lowers the sum over `at` by the overlap. */
  lemma {:induction false} SumInLowered(s: seq<int>, r: seq<int>, hit: set<nat>, at: set<nat>)
    requires IsLowered(s, r, hit)
    ensures SumIn(r, at) == SumIn(s, at) - |hit * at|
    decreases |s|
  {
    var n := |s|;
    if n == 0 {
      assert hit * at == {};
    } else {
      LoweredFront(s, r, hit);
      SumInLowered(s[..n - 1], r[..n - 1], hit - {n - 1}, at);
      OverlapWithout(hit, at, n - 1);
    }
  }

  lemma OverlapWithout(hit: set<nat>, at: set<nat>, x: nat)
    ensures |hit * at| == |(hit - {x}) * at| + if x in hit && x in at then 1 else 0
  {
    if x in hit && x in at {
      assert hit * at == (hit - {x}) * at + {x};
    } else {
      assert hit * at == (hit - {x}) * at;
    }
  }
}
