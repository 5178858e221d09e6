/** Which buckets receive the units, told by counting how many buckets come first, without sorting anything. */
module TieBreaking {
  import opened Sums
  import opened Ranking
  import opened GaleRyser
  import opened TokenImputation

  /** The larger first value leads, then the larger second value, then the smaller index. */
  predicate Leads(first: seq<nat>, second: seq<nat>, i: nat, j: nat)
    requires i < |first| == |second| && j < |first|
  {
    || first[i] > first[j]
    || (first[i] == first[j] && second[i] > second[j])
    || (first[i] == first[j] && second[i] == second[j] && i < j)
  }

  function Ahead(first: seq<nat>, second: seq<nat>, j: nat): (r: set<nat>)
    requires j < |first| == |second|
  {
    set i | i in Indices(|first|) && Leads(first, second, i, j)
  }

  // ----- Sets that lead

  /** A leading set consists of the indices with fewer indices ahead of them than it has members. */
  lemma {:induction false} LeadingByCount(
      first: seq<nat>, second: seq<nat>, keys: seq<Key>, top: set<nat>, j: nat)
    requires |first| == |second| == |keys| && j < |first|
    requires forall i :: 0 <= i < |keys| ==> keys[i] == Key(first[i], second[i])
    requires Leading(keys, top)
    ensures j in top <==> |Ahead(first, second, j)| < |top|
  {
    var ahead := Ahead(first, second, j);
    forall i: nat | i < |keys| ensures Leads(first, second, i, j) <==> Before(keys, i, j) {}
    if j in top {
      forall i | i in ahead ensures i in top - {j} {
        BeforeIsAsymmetric(keys, i, j);
      }
      SubsetSize(ahead, top - {j});
    } else {
      forall i | i in top ensures i in ahead {
        assert j in Indices(|keys|) - top;
      }
      SubsetSize(top, ahead);
    }
  }

  // ----- One total

  function NoSecond(first: seq<nat>): (r: seq<nat>)
    ensures |r| == |first|
  {
    seq(|first|, _ => 0)
  }

  /**
   * The split of one total, bucket by bucket: the quotient, and one unit more if fewer buckets than there
   * are units missing have a larger remainder, or the same one and a smaller index.
   */
  lemma ImputedExactly(s: Shares, total: nat, j: nat)
    requires Proper(s) && j < |s.numerators|
    ensures var rems := Remainders(s, total);
      var ahead := set i | i in Indices(|rems|) && (rems[i] > rems[j] || (rems[i] == rems[j] && i < j));
      var missing := total - Sum(Floors(s, total));
      Impute(s, total)[j] == total * s.numerators[j] / s.denominator + if |ahead| < missing then 1 else 0
  {
    var rems := Remainders(s, total);
    var keys := RemainderKeys(s, total);
    BumpedLeads(s, total);
    LeadingByCount(rems, NoSecond(rems), keys, Bumped(s, total), j);
    assert Ahead(rems, NoSecond(rems), j)
        == set i | i in Indices(|rems|) && (rems[i] > rems[j] || (rems[i] == rems[j] && i < j));
  }

  // ----- One row of a batch

  /** A bucket gives the row a unit if it is open and fewer buckets are ahead of it than the row needs units. */
  predicate TakesUnit(caps: seq<nat>, remainders: seq<nat>, need: nat, j: nat)
    requires j < |caps| == |remainders|
  {
    caps[j] > 0 && |Ahead(caps, remainders, j)| < need
  }

  lemma DrawLeads(caps: seq<nat>, remainders: seq<nat>, need: nat)
    requires |caps| == |remainders|
    ensures Leading(BucketKeys(caps, remainders), Draw(caps, remainders, need))
  {
    var keys, hit := BucketKeys(caps, remainders), Draw(caps, remainders, need);
    forall i: nat, j: nat | i in hit && j in Indices(|keys|) - hit
      ensures Before(keys, i, j)
    {
      if caps[j] > 0 {
        DrawnComesFirst(caps, remainders, need, i, j);
      }
    }
  }

  lemma DrawnComesFirst(caps: seq<nat>, remainders: seq<nat>, need: nat, i: nat, j: nat)
    requires |caps| == |remainders| && j < |caps| && caps[j] > 0
    requires i in Draw(caps, remainders, need) && j !in Draw(caps, remainders, need)
    ensures Before(BucketKeys(caps, remainders), i, j)
  {
    var keys := BucketKeys(caps, remainders);
    var order := RankedIndices(keys);
    RankingSorted(keys);
    var q := PlaceOf(order, |caps|, j);
    PassedOver(order, caps, need, |caps|, q);
    var p := PlacedBefore(order, caps, need, q, i);
    assert Before(keys, order[p], order[q]);
  }

  /** The sorted walk over the buckets gives exactly these units. */
  lemma DrawnExactly(caps: seq<nat>, remainders: seq<nat>, need: nat, j: nat)
    requires j < |caps| == |remainders|
    ensures j in Draw(caps, remainders, need) <==> TakesUnit(caps, remainders, need, j)
  {
    var hit := Draw(caps, remainders, need);
    DrawLeads(caps, remainders, need);
    LeadingByCount(caps, remainders, BucketKeys(caps, remainders), hit, j);
    if j !in hit && caps[j] > 0 {
      DrawIsLargest(caps, remainders, need);
    }
  }

  // ----- The order of the rows

  /** All rows, those with the larger need first, and of equal ones those with the smaller index. */
  ghost predicate IsRowOrder(order: seq<nat>, needs: seq<nat>) {
    InRange(order, |needs|) && (forall r: nat :: r < |needs| ==> r in order) && RowsSorted(order, needs)
  }

  ghost predicate RowsSorted(order: seq<nat>, needs: seq<nat>)
    requires InRange(order, |needs|)
  {
    forall p, q :: 0 <= p < q < |order| ==> RowLeads(needs, order[p], order[q])
  }

  predicate RowLeads(needs: seq<nat>, r: nat, t: nat)
    requires r < |needs| && t < |needs|
  {
    needs[r] > needs[t] || (needs[r] == needs[t] && r < t)
  }

  lemma {:induction false} RowOrderIsUnique(a: seq<nat>, b: seq<nat>, needs: seq<nat>)
    requires IsRowOrder(a, needs) && IsRowOrder(b, needs)
    ensures a == b
  {
    RowOrderSize(a, needs);
    RowOrderSize(b, needs);
    SameOrder(a, b, needs);
  }

  lemma RowOrderSize(order: seq<nat>, needs: seq<nat>)
    requires IsRowOrder(order, needs)
    ensures |order| == |needs| && forall r: nat :: r in order <==> r < |needs|
  {
    forall p, q | 0 <= p < q < |order| ensures order[p] != order[q] {
      assert RowLeads(needs, order[p], order[q]);
    }
    ElementsSize(order);
    assert Elements(order) == Indices(|needs|);
  }

  /** Two sequences of the same elements, both strictly sorted the same way, are equal. */
  lemma {:induction false} SameOrder(a: seq<nat>, b: seq<nat>, needs: seq<nat>)
    requires InRange(a, |needs|) && InRange(b, |needs|) && (forall r: nat :: r in a <==> r in b)
    requires RowsSorted(a, needs) && RowsSorted(b, needs) && |a| == |b|
    ensures a == b
    decreases |a|
  {
    if |a| > 0 {
      assert a[0] in b;
      assert b[0] in a;
      HeadsAgree(a, b, needs);
      RestAgrees(a, b, needs);
      SameOrder(a[1..], b[1..], needs);
      assert a == [a[0]] + a[1..] && b == [b[0]] + b[1..];
    }
  }

  lemma HeadsAgree(a: seq<nat>, b: seq<nat>, needs: seq<nat>)
    requires InRange(a, |needs|) && InRange(b, |needs|) && RowsSorted(a, needs) && RowsSorted(b, needs)
    requires |a| > 0 && |b| > 0 && a[0] in b && b[0] in a
    ensures a[0] == b[0]
  {
    var p :| 0 <= p < |b| && b[p] == a[0];
    var q :| 0 <= q < |a| && a[q] == b[0];
  }

  lemma RestAgrees(a: seq<nat>, b: seq<nat>, needs: seq<nat>)
    requires InRange(a, |needs|) && InRange(b, |needs|) && RowsSorted(a, needs) && RowsSorted(b, needs)
    requires |a| > 0 && |b| > 0 && a[0] == b[0] && (forall r: nat :: r in a <==> r in b)
    ensures forall r: nat :: r in a[1..] <==> r in b[1..]
    ensures RowsSorted(a[1..], needs) && RowsSorted(b[1..], needs)
  {
    RestIsOthers(a, needs);
    RestIsOthers(b, needs);
  }

  lemma RestIsOthers(a: seq<nat>, needs: seq<nat>)
    requires InRange(a, |needs|) && RowsSorted(a, needs) && |a| > 0
    ensures forall r: nat :: r in a[1..] <==> r in a && r != a[0]
  {
    assert a == [a[0]] + a[1..];
    forall r: nat | r in a[1..] ensures r != a[0] {
      var p :| 0 <= p < |a[1..]| && a[1..][p] == r;
      assert RowLeads(needs, a[0], a[p + 1]);
    }
  }
}
