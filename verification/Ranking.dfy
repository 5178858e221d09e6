/**
 * The index orders produced by the source's `sort_by` calls: larger primary key first,
 * then larger secondary key, then smaller index.
 */
module Ranking {
  import opened Sums

  datatype Key = Key(primary: nat, secondary: nat)

  predicate Before(keys: seq<Key>, i: nat, j: nat)
    requires i < |keys| && j < |keys|
  {
    || keys[i].primary > keys[j].primary
    || (keys[i].primary == keys[j].primary && keys[i].secondary > keys[j].secondary)
    || (keys[i] == keys[j] && i < j)
  }

  predicate InRange(order: seq<nat>, n: nat) {
    forall p :: 0 <= p < |order| ==> order[p] < n
  }

  function Elements(order: seq<nat>): set<nat> {
    set x | x in order
  }

  lemma ElementsCons(x: nat, order: seq<nat>)
    ensures Elements([x] + order) == {x} + Elements(order)
  {
    forall y | y in {x} + Elements(order)
      ensures y in [x] + order
    {
      if y != x {
        var p :| 0 <= p < |order| && order[p] == y;
        assert ([x] + order)[p + 1] == y;
      }
    }
  }

  function Insert(keys: seq<Key>, order: seq<nat>, i: nat): (r: seq<nat>)
    requires i < |keys| && InRange(order, |keys|)
    ensures InRange(r, |keys|) && |r| == |order| + 1
  {
    if |order| == 0 then [i]
    else if Before(keys, i, order[0]) then [i] + order
    else [order[0]] + Insert(keys, order[1..], i)
  }

  lemma {:induction false} InsertElements(keys: seq<Key>, order: seq<nat>, i: nat)
    requires i < |keys| && InRange(order, |keys|)
    ensures Elements(Insert(keys, order, i)) == Elements(order) + {i}
  {
    if |order| > 0 {
      ElementsCons(order[0], order[1..]);
      ElementsCons(order[0], Insert(keys, order[1..], i));
      assert order == [order[0]] + order[1..];
      InsertElements(keys, order[1..], i);
    }
  }

  /** The indices below `n`, ordered by `Before`. */
  function Ranked(keys: seq<Key>, n: nat): (r: seq<nat>)
    requires n <= |keys|
    ensures InRange(r, |keys|) && |r| == n
  {
    if n == 0 then [] else Insert(keys, Ranked(keys, n - 1), n - 1)
  }

  function RankedIndices(keys: seq<Key>): (r: seq<nat>)
    ensures InRange(r, |keys|) && |r| == |keys|
  {
    Ranked(keys, |keys|)
  }

  ghost predicate Distinct(order: seq<nat>) {
    forall p, q :: 0 <= p < q < |order| ==> order[p] != order[q]
  }

  /** Strictly sorted: every entry comes before all later ones. */
  ghost predicate SortedBy(keys: seq<Key>, order: seq<nat>) {
    && InRange(order, |keys|)
    && forall p, q :: 0 <= p < q < |order| ==> Before(keys, order[p], order[q])
  }

  lemma {:induction false} InsertSorted(keys: seq<Key>, order: seq<nat>, i: nat)
    requires i < |keys| && InRange(order, |keys|)
    requires SortedBy(keys, order) && InRange(order, i)
    ensures SortedBy(keys, Insert(keys, order, i))
  {
    if |order| > 0 && !Before(keys, i, order[0]) {
      var rest := order[1..];
      InsertSorted(keys, rest, i);
      var r := Insert(keys, rest, i);
      InsertElements(keys, rest, i);
      forall q | 0 <= q < |r|
        ensures Before(keys, order[0], r[q])
      {
        assert r[q] in Elements(r);
        if r[q] != i {
          var p :| 0 <= p < |rest| && rest[p] == r[q];
          assert order[p + 1] == r[q];
        }
      }
    }
  }

  ghost predicate Ranks(keys: seq<Key>, order: seq<nat>, n: nat) {
    SortedBy(keys, order) && InRange(order, n) && Elements(order) == Indices(n)
  }

  lemma InsertRanks(keys: seq<Key>, order: seq<nat>, n: nat)
    requires n < |keys| && Ranks(keys, order, n)
    ensures Ranks(keys, Insert(keys, order, n), n + 1)
  {
    var r := Insert(keys, order, n);
    InsertSorted(keys, order, n);
    InsertElements(keys, order, n);
    assert forall p :: 0 <= p < |r| ==> r[p] in Elements(r);
  }

  lemma {:induction false} RankedSorted(keys: seq<Key>, n: nat) returns (order: seq<nat>)
    requires n <= |keys|
    ensures order == Ranked(keys, n)
    ensures Ranks(keys, order, n)
  {
    if n == 0 {
      order := [];
    } else {
      var before := RankedSorted(keys, n - 1);
      InsertRanks(keys, before, n - 1);
      order := Insert(keys, before, n - 1);
    }
  }

  /** The ranking is a strictly sorted permutation of all indices. */
  lemma RankingSorted(keys: seq<Key>)
    ensures SortedBy(keys, RankedIndices(keys)) && Distinct(RankedIndices(keys))
    ensures Elements(RankedIndices(keys)) == Indices(|keys|)
  {
    var order := RankedSorted(keys, |keys|);
  }

  lemma {:induction false} ElementsSize(order: seq<nat>)
    requires Distinct(order)
    ensures |Elements(order)| == |order|
  {
    if |order| > 0 {
      var rest := order[..|order| - 1];
      ElementsSize(rest);
      assert order == rest + [order[|order| - 1]];
      assert Elements(order) == Elements(rest) + {order[|order| - 1]};
    }
  }

  /** Every index chosen comes before every index left out. */
  ghost predicate Leading(keys: seq<Key>, top: set<nat>) {
    && top <= Indices(|keys|)
    && forall i: nat, j: nat :: i in top && j in Indices(|keys|) - top ==> Before(keys, i, j)
  }

  function Top(keys: seq<Key>, k: nat): set<nat>
    requires k <= |keys|
  {
    Elements(RankedIndices(keys)[..k])
  }

  lemma TopLeads(keys: seq<Key>, k: nat)
    requires k <= |keys|
    ensures Leading(keys, Top(keys, k)) && |Top(keys, k)| == k
  {
    var order, top := RankedIndices(keys), Top(keys, k);
    RankingSorted(keys);
    ElementsSize(order[..k]);
    forall i: nat, j: nat | i in top && j in Indices(|keys|) - top
      ensures Before(keys, i, j)
    {
      var p :| 0 <= p < k && order[p] == i;
      assert j in Elements(order);
      assert forall x :: 0 <= x < k ==> order[..k][x] in top;
      var q :| 0 <= q < |order| && order[q] == j;
    }
    forall i | i in top
      ensures i in Indices(|keys|)
    {
      assert i in Elements(order);
    }
  }

  lemma BeforeIsAsymmetric(keys: seq<Key>, i: nat, j: nat)
    requires i < |keys| && j < |keys| && Before(keys, i, j)
    ensures !Before(keys, j, i)
  {
  }

  /** A leading set is fixed by its size. */
  lemma LeadingIsUnique(keys: seq<Key>, a: set<nat>, b: set<nat>)
    requires Leading(keys, a) && Leading(keys, b) && |a| == |b|
    ensures a == b
  {
    if a <= b {
      SubsetOfSameSize(a, b);
    } else {
      var i :| i in a && i !in b;
      forall j: nat | j in b
        ensures j in a
      {
        if j in Indices(|keys|) - a {
          BeforeIsAsymmetric(keys, i, j);
        }
      }
      SubsetOfSameSize(b, a);
    }
  }
}
