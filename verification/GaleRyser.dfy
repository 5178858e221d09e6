/**
 * Filling a 0/1 matrix with given row sums (`needs`) and column sums (`caps`), one row
 * at a time, each row taking the columns with the largest remaining capacity.
 *
 * A filling assigns to each row the set of columns that receive one unit.
 */
module GaleRyser {
  import opened Sums
  import opened Ranking

  /** How many units columns numbering `k` can take from all rows together. */
  function Room(needs: seq<nat>, k: nat): nat {
    if |needs| == 0 then 0 else Room(needs[..|needs| - 1], k) + Min(needs[|needs| - 1], k)
  }

  /** Rows still able to use one more column beyond `k`. */
  function Slope(needs: seq<nat>, k: nat): nat {
    if |needs| == 0 then 0
    else Slope(needs[..|needs| - 1], k) + if needs[|needs| - 1] > k then 1 else 0
  }

  /** No group of columns asks for more units than the rows can give to that many columns. */
  ghost predicate Balanced(needs: seq<nat>, caps: seq<nat>) {
    forall at: set<nat> :: at <= Indices(|caps|) ==> Fits(needs, caps, at)
  }

  ghost predicate Fits(needs: seq<nat>, caps: seq<nat>, at: set<nat>) {
    SumIn(caps, at) <= Room(needs, |at|)
  }

  function Occurrences(filling: seq<set<nat>>, j: nat): nat {
    if |filling| == 0 then 0
    else Occurrences(filling[..|filling| - 1], j) + if j in filling[|filling| - 1] then 1 else 0
  }

  ghost predicate IsFilling(filling: seq<set<nat>>, needs: seq<nat>, caps: seq<nat>) {
    && |filling| == |needs|
    && (forall r :: 0 <= r < |needs| ==> filling[r] <= Indices(|caps|) && |filling[r]| == needs[r])
    && (forall j: nat :: j < |caps| ==> Occurrences(filling, j) == caps[j])
  }

  ghost predicate Feasible(needs: seq<nat>, caps: seq<nat>) {
    exists filling :: IsFilling(filling, needs, caps)
  }

  // ----- Room grows with k, by ever smaller whole steps

  lemma {:induction false} RoomStep(needs: seq<nat>, k: nat)
    ensures Room(needs, k + 1) == Room(needs, k) + Slope(needs, k)
    ensures Slope(needs, k + 1) <= Slope(needs, k)
  {
    if |needs| > 0 {
      RoomStep(needs[..|needs| - 1], k);
    }
  }

  /** If `b` steps after `a` gain less than `b * v`, every later step gains at most `v - 1`. */
  lemma {:induction false} LowSlope(needs: seq<nat>, a: nat, b: nat, v: int)
    requires Room(needs, a + b) - Room(needs, a) < b * v
    ensures Slope(needs, a + b) <= v - 1
    decreases b
  {
    if b > 0 {
      RoomStep(needs, a + b - 1);
      if Slope(needs, a + b - 1) >= v {
        assert b * v == (b - 1) * v + v by { Distribute(b - 1, 1, v); }
        LowSlope(needs, a, b - 1, v);
      }
    }
  }

  lemma {:induction false} SlopeBoundsGain(needs: seq<nat>, a: nat, d: nat, v: int)
    requires Slope(needs, a) <= v
    ensures Room(needs, a + d) - Room(needs, a) <= d * v
    ensures Slope(needs, a + d) <= v
    decreases d
  {
    if d > 0 {
      SlopeBoundsGain(needs, a, d - 1, v);
      RoomStep(needs, a + d - 1);
      Distribute(d - 1, 1, v);
    }
  }

  lemma {:induction false} RoomWithout(needs: seq<nat>, row: nat, k: nat)
    requires row < |needs|
    ensures Room(needs, k) == Room(needs[row := 0], k) + Min(needs[row], k)
  {
    var n := |needs|;
    if row == n - 1 {
      assert needs[row := 0][..n - 1] == needs[..n - 1];
    } else {
      RoomWithout(needs[..n - 1], row, k);
      assert needs[row := 0][..n - 1] == needs[..n - 1][row := 0];
    }
  }

  lemma {:induction false} RoomAtMostSum(needs: seq<nat>, k: nat)
    ensures Room(needs, k) <= Sum(needs)
    ensures (forall r :: 0 <= r < |needs| ==> needs[r] <= k) ==> Room(needs, k) == Sum(needs)
  {
    if |needs| > 0 {
      RoomAtMostSum(needs[..|needs| - 1], k);
    }
  }

  // ----- One row

  /** Units taken off the columns in `hit`. */
  function Debit(caps: seq<nat>, hit: set<nat>): (r: seq<nat>)
    requires forall j: nat :: j < |caps| && j in hit ==> caps[j] > 0
    ensures |r| == |caps|
    ensures forall j: nat :: j < |caps| ==> r[j] == caps[j] - if j in hit then 1 else 0
  {
    seq(|caps|, j requires 0 <= j < |caps| => if j in hit then caps[j] - 1 else caps[j])
  }

  ghost predicate Largest(caps: seq<nat>, hit: set<nat>) {
    && hit <= Indices(|caps|)
    && forall i: nat, j: nat :: i in hit && j < |caps| && j !in hit ==> caps[i] >= caps[j]
  }

  /** A value that every column in `hit` reaches and no column in `inner` exceeds. */
  lemma Separator(caps: seq<nat>, hit: set<nat>, inner: set<nat>) returns (v: nat)
    requires Largest(caps, hit) && inner <= Indices(|caps|) - hit && hit != {}
    ensures forall j :: j in hit ==> v <= caps[j]
    ensures forall j :: j in inner ==> caps[j] <= v
  {
    var i :| i in hit;
    v := caps[i];
    var left := hit - {i};
    while left != {}
      invariant left <= hit
      invariant exists k :: k in hit && caps[k] == v
      invariant forall j :: j in hit - left ==> v <= caps[j]
    {
      var k :| k in left;
      left := left - {k};
      v := Min(v, caps[k]);
    }
  }

  /** The arithmetic of the exchange: `Room` cannot dip below the chord between two bounds. */
  lemma Interpolate(rest: seq<nat>, a: nat, k: nat, e: nat, b: nat, d: nat, v: int, both: int, inner: int, outer: int)
    requires a + b == k && k + d == e
    requires both <= Room(rest, a) + a
    requires both + inner + outer <= Room(rest, e) + a + (e - k)
    requires inner <= b * v && d * v <= outer
    ensures both + inner - a <= Room(rest, k)
  {
    assert d * (v - 1) == d * v - d;
    if both + inner - a > Room(rest, k) {
      LowSlope(rest, a, b, v);
      SlopeBoundsGain(rest, k, d, v - 1);
    }
  }

  /** What balance says about one column group, with the row's own share split off. */
  lemma BalancedAt(needs: seq<nat>, caps: seq<nat>, row: nat, at: set<nat>)
    requires Balanced(needs, caps) && row < |needs| && at <= Indices(|caps|)
    ensures SumIn(caps, at) <= Room(needs[row := 0], |at|) + Min(needs[row], |at|)
  {
    assert Fits(needs, caps, at);
    RoomWithout(needs, row, |at|);
  }

  lemma Overlaps(caps: seq<nat>, hit: set<nat>, at: set<nat>)
    ensures |hit * at| <= |at| <= |at + hit|
    ensures |hit| == |hit * at| + |at + hit| - |at|
    ensures |at - hit| == |at| - |hit * at| && |hit - at| == |at + hit| - |at|
    ensures SumIn(caps, at) == SumIn(caps, hit * at) + SumIn(caps, at - hit)
    ensures SumIn(caps, at + hit) == SumIn(caps, at) + SumIn(caps, hit - at)
  {
    assert hit * at + (at - hit) == at;
    assert hit * at + (hit - at) == hit;
    assert at + (hit - at) == at + hit;
    SumInDisjoint(caps, hit * at, at - hit);
    SumInDisjoint(caps, at, hit - at);
  }

  lemma Bracket(caps: seq<nat>, hit: set<nat>, at: set<nat>) returns (v: nat)
    requires Largest(caps, hit) && at <= Indices(|caps|) && hit != {}
    ensures SumIn(caps, at - hit) <= |at - hit| * v
    ensures |hit - at| * v <= SumIn(caps, hit - at)
  {
    v := Separator(caps, hit, at - hit);
    SumInAtMost(caps, at - hit, v);
    SumInAtLeast(caps, hit - at, v);
  }

  /** No column group is overdrawn after the row, or the balance was broken before it. */
  lemma NoOverdraft(needs: seq<nat>, caps: seq<nat>, row: nat, hit: set<nat>, at: set<nat>)
    requires Balanced(needs, caps) && row < |needs| && needs[row] == |hit| && Largest(caps, hit)
    requires at <= Indices(|caps|)
    ensures SumIn(caps, at) - |hit * at| <= Room(needs[row := 0], |at|)
  {
    BalancedAt(needs, caps, row, at);
    if hit == {} {
      assert |hit * at| == 0;
    } else {
      BalancedAt(needs, caps, row, hit * at);
      BalancedAt(needs, caps, row, at + hit);
      Overlaps(caps, hit, at);
      var v := Bracket(caps, hit, at);
      Interpolate(needs[row := 0], |hit * at|, |at|, |at + hit|, |at - hit|, |hit - at|, v,
                  SumIn(caps, hit * at), SumIn(caps, at - hit), SumIn(caps, hit - at));
    }
  }

  /**
   * The heart of the matter: serving one row in full from the largest columns keeps
   * the remaining problem balanced.
   */
  lemma ServingLargestKeepsBalance(needs: seq<nat>, caps: seq<nat>, row: nat, hit: set<nat>)
    requires Balanced(needs, caps) && row < |needs| && needs[row] == |hit|
    requires Largest(caps, hit) && forall j :: j in hit ==> caps[j] > 0
    ensures Balanced(needs[row := 0], Debit(caps, hit))
  {
    var rest, left := needs[row := 0], Debit(caps, hit);
    forall at: set<nat> | at <= Indices(|left|)
      ensures Fits(rest, left, at)
    {
      SumInLowered(caps, left, hit, at);
      NoOverdraft(needs, caps, row, hit, at);
    }
  }

  // ----- The greedy fill

  /**
   * The columns one row has drawn on after looking at the first `p` columns of `order`:
   * it skips exhausted columns and stops when nothing is needed any more.
   */
  function Placed(order: seq<nat>, caps: seq<nat>, need: nat, p: nat): (hit: set<nat>)
    requires InRange(order, |caps|) && p <= |order|
    ensures |hit| <= need
    ensures forall j :: j in hit ==> j < |caps| && caps[j] > 0
  {
    if p == 0 then {}
    else
      var hit := Placed(order, caps, need, p - 1);
      if |hit| == need || caps[order[p - 1]] == 0 then hit else hit + {order[p - 1]}
  }

  lemma {:induction false} PlacedBefore(order: seq<nat>, caps: seq<nat>, need: nat, p: nat, j: nat) returns (q: nat)
    requires InRange(order, |caps|) && p <= |order|
    requires j in Placed(order, caps, need, p)
    ensures q < p && order[q] == j
  {
    if j in Placed(order, caps, need, p - 1) {
      q := PlacedBefore(order, caps, need, p - 1, j);
    } else {
      q := p - 1;
    }
  }

  /** A column looked at but not drawn on was exhausted, or the row was already served. */
  lemma {:induction false} PassedOver(order: seq<nat>, caps: seq<nat>, need: nat, p: nat, q: nat)
    requires InRange(order, |caps|) && q < p <= |order|
    requires order[q] !in Placed(order, caps, need, p) && caps[order[q]] > 0
    ensures |Placed(order, caps, need, q)| == need
    ensures Placed(order, caps, need, p) == Placed(order, caps, need, q)
  {
    if p > q + 1 {
      PassedOver(order, caps, need, p - 1, q);
    }
  }

  /** Capacity first, then the row's own remainder, then the bucket's position. */
  function BucketKeys(caps: seq<nat>, remainders: seq<nat>): (keys: seq<Key>)
    requires |remainders| == |caps|
    ensures |keys| == |caps|
  {
    seq(|caps|, j requires 0 <= j < |caps| => Key(caps[j], remainders[j]))
  }

  /** The columns the row draws on, given what is left in every column. */
  function Draw(caps: seq<nat>, remainders: seq<nat>, need: nat): (hit: set<nat>)
    requires |remainders| == |caps|
    ensures hit <= Indices(|caps|) && |hit| <= need
    ensures forall j :: j in hit ==> caps[j] > 0
  {
    Placed(RankedIndices(BucketKeys(caps, remainders)), caps, need, |caps|)
  }

  lemma PlaceOf(order: seq<nat>, n: nat, j: nat) returns (p: nat)
    requires Elements(order) == Indices(n) && j < n
    ensures p < |order| && order[p] == j
  {
    assert j in Elements(order);
    p :| p < |order| && order[p] == j;
  }

  lemma RankedByCapacity(caps: seq<nat>, remainders: seq<nat>, p: nat, q: nat)
    requires |remainders| == |caps| && p < q < |caps|
    ensures var order := RankedIndices(BucketKeys(caps, remainders)); caps[order[p]] >= caps[order[q]]
  {
    var keys := BucketKeys(caps, remainders);
    RankingSorted(keys);
    assert Before(keys, RankedIndices(keys)[p], RankedIndices(keys)[q]);
  }

  /** Why a column is not drawn on: a full row, served from columns at least as large, or no capacity. */
  lemma NotDrawn(caps: seq<nat>, remainders: seq<nat>, need: nat, j: nat)
    requires |remainders| == |caps| && j < |caps|
    requires j !in Draw(caps, remainders, need) && caps[j] > 0
    ensures |Draw(caps, remainders, need)| == need
    ensures forall i :: i in Draw(caps, remainders, need) ==> caps[i] >= caps[j]
  {
    var order := RankedIndices(BucketKeys(caps, remainders));
    RankingSorted(BucketKeys(caps, remainders));
    var q := PlaceOf(order, |caps|, j);
    PassedOver(order, caps, need, |caps|, q);
    forall i | i in Draw(caps, remainders, need)
      ensures caps[i] >= caps[j]
    {
      var p := PlacedBefore(order, caps, need, q, i);
      RankedByCapacity(caps, remainders, p, q);
    }
  }

  lemma DrawIsLargest(caps: seq<nat>, remainders: seq<nat>, need: nat)
    requires |remainders| == |caps|
    ensures Largest(caps, Draw(caps, remainders, need))
    ensures |Draw(caps, remainders, need)| < need ==>
              forall j: nat :: j < |caps| && caps[j] > 0 ==> j in Draw(caps, remainders, need)
  {
    var hit := Draw(caps, remainders, need);
    forall j: nat | j < |caps| && j !in hit
      ensures forall i: nat :: i in hit ==> caps[i] >= caps[j]
      ensures |hit| < need ==> caps[j] == 0
    {
      if caps[j] > 0 {
        NotDrawn(caps, remainders, need, j);
      }
    }
  }

  /** What is still to be placed, what has been placed, and what the columns can still take. */
  datatype Fill = Fill(needs: seq<nat>, placed: seq<set<nat>>, caps: seq<nat>)

  ghost predicate WellFormed(f: Fill, remainders: seq<seq<nat>>) {
    && |f.placed| == |f.needs| == |remainders|
    && forall r :: 0 <= r < |remainders| ==> |remainders[r]| == |f.caps|
  }

  /** One row's turn. */
  function Serve(f: Fill, remainders: seq<seq<nat>>, row: nat): (g: Fill)
    requires WellFormed(f, remainders) && row < |f.needs|
    ensures WellFormed(g, remainders) && |g.caps| == |f.caps| && |g.needs| == |f.needs|
  {
    if f.needs[row] == 0 then f
    else
      var hit := Draw(f.caps, remainders[row], f.needs[row]);
      Fill(f.needs[row := f.needs[row] - |hit|], f.placed[row := f.placed[row] + hit], Debit(f.caps, hit))
  }

  /** All rows in the given order. */
  function ServeAll(f: Fill, remainders: seq<seq<nat>>, order: seq<nat>): (g: Fill)
    requires WellFormed(f, remainders) && InRange(order, |f.needs|)
    ensures WellFormed(g, remainders) && |g.caps| == |f.caps| && |g.needs| == |f.needs|
    decreases |order|
  {
    if |order| == 0 then f
    else ServeAll(Serve(f, remainders, order[0]), remainders, order[1..])
  }

  function Start(needs: seq<nat>, caps: seq<nat>): Fill {
    Fill(needs, seq(|needs|, _ => {}), caps)
  }

  // ----- Conservation

  /** Per row, the units still needed and the units placed make up what it needed at first. */
  ghost predicate RowsAccount(f: Fill, needs: seq<nat>) {
    && |f.needs| == |f.placed| == |needs|
    && forall r :: 0 <= r < |needs| ==> f.placed[r] <= Indices(|f.caps|) && f.needs[r] + |f.placed[r]| == needs[r]
  }

  /** Per column, the units left and the units placed make up its capacity. */
  ghost predicate ColumnsAccount(f: Fill, caps: seq<nat>) {
    && |f.caps| == |caps|
    && forall j: nat :: j < |caps| ==> f.caps[j] + Occurrences(f.placed, j) == caps[j]
  }

  ghost predicate Accounts(f: Fill, needs: seq<nat>, caps: seq<nat>) {
    && RowsAccount(f, needs)
    && ColumnsAccount(f, caps)
    && Sum(f.needs) - Sum(f.caps) == Sum(needs) - Sum(caps)
  }

  lemma {:induction false} OccurrencesUpdate(filling: seq<set<nat>>, row: nat, hit: set<nat>, j: nat)
    requires row < |filling|
    ensures Occurrences(filling[row := hit], j) + (if j in filling[row] then 1 else 0)
         == Occurrences(filling, j) + if j in hit then 1 else 0
  {
    var n := |filling|;
    if row == n - 1 {
      assert filling[row := hit][..n - 1] == filling[..n - 1];
    } else {
      OccurrencesUpdate(filling[..n - 1], row, hit, j);
      assert filling[row := hit][..n - 1] == filling[..n - 1][row := hit];
    }
  }

  lemma {:induction false} OccurrencesOfNothing(filling: seq<set<nat>>, j: nat)
    requires forall r :: 0 <= r < |filling| ==> filling[r] == {}
    ensures Occurrences(filling, j) == 0
  {
    if |filling| > 0 {
      OccurrencesOfNothing(filling[..|filling| - 1], j);
    }
  }

  lemma StartAccounts(needs: seq<nat>, caps: seq<nat>)
    ensures Accounts(Start(needs, caps), needs, caps)
  {
    forall j: nat | j < |caps|
      ensures Occurrences(Start(needs, caps).placed, j) == 0
    {
      OccurrencesOfNothing(Start(needs, caps).placed, j);
    }
  }

  lemma ServeAccounts(f: Fill, remainders: seq<seq<nat>>, row: nat, needs: seq<nat>, caps: seq<nat>)
    requires WellFormed(f, remainders) && row < |f.needs| && f.placed[row] == {}
    requires Accounts(f, needs, caps)
    ensures Accounts(Serve(f, remainders, row), needs, caps)
  {
    if f.needs[row] > 0 {
      var need := f.needs[row];
      var hit := Draw(f.caps, remainders[row], need);
      var g := Fill(f.needs[row := need - |hit|], f.placed[row := hit], Debit(f.caps, hit));
      assert f.placed[row] + hit == hit;
      assert Serve(f, remainders, row) == g;
      ColumnsOfServed(f, row, hit, caps);
      RowsOfServed(f, row, hit, needs);
      SumUpdate(f.needs, row, need - |hit|);
      SumDebit(f.caps, hit);
    }
  }

  lemma RowsOfServed(f: Fill, row: nat, hit: set<nat>, needs: seq<nat>)
    requires row < |f.placed| && f.placed[row] == {} && RowsAccount(f, needs)
    requires hit <= Indices(|f.caps|) && |hit| <= f.needs[row]
    requires forall j :: j in hit ==> f.caps[j] > 0
    ensures RowsAccount(Fill(f.needs[row := f.needs[row] - |hit|], f.placed[row := hit], Debit(f.caps, hit)), needs)
  {
  }

  lemma ColumnsOfServed(f: Fill, row: nat, hit: set<nat>, caps: seq<nat>)
    requires row < |f.placed| && f.placed[row] == {} && ColumnsAccount(f, caps)
    requires hit <= Indices(|caps|) && forall j :: j in hit ==> f.caps[j] > 0
    ensures ColumnsAccount(Fill(f.needs, f.placed[row := hit], Debit(f.caps, hit)), caps)
  {
    forall j: nat | j < |caps|
      ensures Debit(f.caps, hit)[j] + Occurrences(f.placed[row := hit], j) == caps[j]
    {
      OccurrencesUpdate(f.placed, row, hit, j);
    }
  }

  lemma ServeLeavesOthers(f: Fill, remainders: seq<seq<nat>>, row: nat, r: nat)
    requires WellFormed(f, remainders) && row < |f.needs| && r < |f.needs| && r != row
    ensures Serve(f, remainders, row).placed[r] == f.placed[r]
  {
  }

  lemma SumDebit(caps: seq<nat>, hit: set<nat>)
    requires hit <= Indices(|caps|) && forall j :: j in hit ==> caps[j] > 0
    ensures Sum(Debit(caps, hit)) == Sum(caps) - |hit|
  {
    var all := Indices(|caps|);
    SumInLowered(caps, Debit(caps, hit), hit, all);
    SumInAll(caps, all);
    SumInAll(Debit(caps, hit), all);
    assert hit * all == hit;
  }

  lemma {:induction false} ServeAllAccounts(
      f: Fill, remainders: seq<seq<nat>>, order: seq<nat>, needs: seq<nat>, caps: seq<nat>)
    requires WellFormed(f, remainders) && InRange(order, |f.needs|) && Distinct(order)
    requires Accounts(f, needs, caps)
    requires forall p :: 0 <= p < |order| ==> f.placed[order[p]] == {}
    ensures Accounts(ServeAll(f, remainders, order), needs, caps)
    decreases |order|
  {
    if |order| > 0 {
      ServeAccounts(f, remainders, order[0], needs, caps);
      var g := Serve(f, remainders, order[0]);
      forall p | 0 <= p < |order[1..]|
        ensures g.placed[order[1..][p]] == {}
      {
        assert order[1..][p] == order[p + 1];
        ServeLeavesOthers(f, remainders, order[0], order[p + 1]);
      }
      ServeAllAccounts(g, remainders, order[1..], needs, caps);
    }
  }

  // ----- Completeness

  /** Columns that hold all remaining capacity are at least as many as any row needs. */
  lemma EnoughColumns(needs: seq<nat>, caps: seq<nat>, row: nat, hit: set<nat>)
    requires row < |needs| && Balanced(needs, caps) && Sum(needs) == Sum(caps)
    requires hit <= Indices(|caps|)
    requires |hit| < needs[row] ==> forall j: nat :: j < |caps| && caps[j] > 0 ==> j in hit
    ensures |hit| >= needs[row]
  {
    if |hit| < needs[row] {
      SumInAll(caps, hit);
      assert Fits(needs, caps, hit);
      RoomWithout(needs, row, |hit|);
      RoomAtMostSum(needs[row := 0], |hit|);
      SumUpdate(needs, row, 0);
    }
  }

  /** A balanced problem never lets a row run short. */
  lemma BalancedServesRow(f: Fill, remainders: seq<seq<nat>>, row: nat)
    requires WellFormed(f, remainders) && row < |f.needs|
    requires Balanced(f.needs, f.caps) && Sum(f.needs) == Sum(f.caps)
    ensures var g := Serve(f, remainders, row);
      && g.needs == f.needs[row := 0]
      && Balanced(g.needs, g.caps) && Sum(g.needs) == Sum(g.caps)
  {
    var need := f.needs[row];
    if need == 0 {
      assert f.needs[row := 0] == f.needs;
    } else {
      var hit := Draw(f.caps, remainders[row], need);
      DrawIsLargest(f.caps, remainders[row], need);
      EnoughColumns(f.needs, f.caps, row, hit);
      assert Serve(f, remainders, row).caps == Debit(f.caps, hit);
      ServingLargestKeepsBalance(f.needs, f.caps, row, hit);
      SumUpdate(f.needs, row, 0);
      SumDebit(f.caps, hit);
    }
  }

  lemma {:induction false} BalancedServesAll(f: Fill, remainders: seq<seq<nat>>, order: seq<nat>)
    requires WellFormed(f, remainders) && InRange(order, |f.needs|)
    requires Balanced(f.needs, f.caps) && Sum(f.needs) == Sum(f.caps)
    ensures var g := ServeAll(f, remainders, order);
      && (forall p :: 0 <= p < |order| ==> g.needs[order[p]] == 0)
      && (forall r :: 0 <= r < |f.needs| && f.needs[r] == 0 ==> g.needs[r] == 0)
    decreases |order|
  {
    if |order| > 0 {
      BalancedServesRow(f, remainders, order[0]);
      var rest := order[1..];
      BalancedServesAll(Serve(f, remainders, order[0]), remainders, rest);
      forall p | 0 <= p < |order|
        ensures ServeAll(f, remainders, order).needs[order[p]] == 0
      {
        if p > 0 {
          assert order[p] == rest[p - 1];
        }
      }
    }
  }

  // ----- Any filling at all shows balance

  /** Units that the rows place inside the column group. */
  function Inside(filling: seq<set<nat>>, at: set<nat>): nat {
    if |filling| == 0 then 0
    else Inside(filling[..|filling| - 1], at) + |filling[|filling| - 1] * at|
  }

  lemma {:induction false} DoubleCount(filling: seq<set<nat>>, caps: seq<nat>, at: set<nat>)
    requires forall r :: 0 <= r < |filling| ==> filling[r] <= Indices(|caps|)
    requires forall j: nat :: j < |caps| ==> caps[j] == Occurrences(filling, j)
    ensures SumIn(caps, at) == Inside(filling, at)
  {
    var m := |filling|;
    if m == 0 {
      SumInZero(caps, at);
    } else {
      var last := filling[m - 1];
      var less := seq(|caps|, j requires 0 <= j < |caps| => Occurrences(filling[..m - 1], j));
      DoubleCount(filling[..m - 1], less, at);
      SumInLowered(caps, less, last, at);
    }
  }

  lemma {:induction false} SumInZero(s: seq<int>, at: set<nat>)
    requires forall j :: 0 <= j < |s| ==> s[j] == 0
    ensures SumIn(s, at) == 0
  {
    if |s| > 0 {
      SumInZero(s[..|s| - 1], at);
    }
  }

  lemma {:induction false} InsideAtMostRoom(filling: seq<set<nat>>, needs: seq<nat>, at: set<nat>)
    requires |filling| == |needs|
    requires forall r :: 0 <= r < |filling| ==> |filling[r]| == needs[r]
    ensures Inside(filling, at) <= Room(needs, |at|)
  {
    var m := |filling|;
    if m > 0 {
      InsideAtMostRoom(filling[..m - 1], needs[..m - 1], at);
      SubsetSize(filling[m - 1] * at, filling[m - 1]);
      SubsetSize(filling[m - 1] * at, at);
    }
  }

  lemma FillingIsBalanced(filling: seq<set<nat>>, needs: seq<nat>, caps: seq<nat>)
    requires IsFilling(filling, needs, caps)
    ensures Balanced(needs, caps)
  {
    forall at: set<nat> | at <= Indices(|caps|)
      ensures Fits(needs, caps, at)
    {
      DoubleCount(filling, caps, at);
      InsideAtMostRoom(filling, needs, at);
    }
  }

  // ----- The main result

  predicate AllZero(s: seq<nat>) {
    forall j :: 0 <= j < |s| ==> s[j] == 0
  }

  /** Every row got all it needs. */
  predicate Served(f: Fill) {
    AllZero(f.needs)
  }

  /** Nothing is left in any column. */
  predicate Emptied(f: Fill) {
    AllZero(f.caps)
  }

  /**
   * The greedy fill is complete. Whatever the order of the rows and the tie-breaking
   * remainders, it serves every row exactly when some filling with these row and column
   * sums exists, and exactly when no group of columns is over-subscribed. It then also
   * empties every column, and what it placed is such a filling.
   */
  lemma GreedyIsComplete(needs: seq<nat>, caps: seq<nat>, remainders: seq<seq<nat>>, order: seq<nat>)
    requires Sum(needs) == Sum(caps)
    requires RowsCover(remainders, order, needs, caps)
    ensures var f := ServeAll(Start(needs, caps), remainders, order);
      && (Served(f) <==> Feasible(needs, caps))
      && (Served(f) <==> Balanced(needs, caps))
      && (Served(f) <==> Emptied(f))
      && (Served(f) ==> IsFilling(f.placed, needs, caps))
      && Accounts(f, needs, caps)
  {
    var f := ServeAll(Start(needs, caps), remainders, order);
    GreedyAccounts(needs, caps, remainders, order);
    SumZero(f.needs);
    SumZero(f.caps);
    if Served(f) {
      AccountsFill(f, needs, caps);
    }
    if Feasible(needs, caps) {
      var filling :| IsFilling(filling, needs, caps);
      FillingIsBalanced(filling, needs, caps);
    }
    if Balanced(needs, caps) {
      BalancedIsServed(needs, caps, remainders, order);
    }
  }

  /** Remainders for every cell, and an order in which every row has one turn. */
  ghost predicate RowsCover(remainders: seq<seq<nat>>, order: seq<nat>, needs: seq<nat>, caps: seq<nat>) {
    && |remainders| == |needs|
    && (forall r :: 0 <= r < |remainders| ==> |remainders[r]| == |caps|)
    && InRange(order, |needs|) && Distinct(order) && Elements(order) == Indices(|needs|)
  }

  lemma GreedyAccounts(needs: seq<nat>, caps: seq<nat>, remainders: seq<seq<nat>>, order: seq<nat>)
    requires RowsCover(remainders, order, needs, caps)
    ensures Accounts(ServeAll(Start(needs, caps), remainders, order), needs, caps)
  {
    StartAccounts(needs, caps);
    ServeAllAccounts(Start(needs, caps), remainders, order, needs, caps);
  }

  lemma AccountsFill(f: Fill, needs: seq<nat>, caps: seq<nat>)
    requires Accounts(f, needs, caps) && Served(f) && Emptied(f)
    ensures IsFilling(f.placed, needs, caps)
  {
  }

  lemma BalancedIsServed(needs: seq<nat>, caps: seq<nat>, remainders: seq<seq<nat>>, order: seq<nat>)
    requires Sum(needs) == Sum(caps) && RowsCover(remainders, order, needs, caps)
    requires Balanced(needs, caps)
    ensures Served(ServeAll(Start(needs, caps), remainders, order))
  {
    BalancedServesAll(Start(needs, caps), remainders, order);
    forall r: nat | r < |needs|
      ensures ServeAll(Start(needs, caps), remainders, order).needs[r] == 0
    {
      var p := PlaceOf(order, |needs|, r);
    }
  }

  lemma {:induction false} SumZero(s: seq<nat>)
    ensures Sum(s) == 0 <==> forall j :: 0 <= j < |s| ==> s[j] == 0
    ensures Sum(s) >= 0
  {
    if |s| > 0 {
      SumZero(s[..|s| - 1]);
    }
  }

  // ----- The same condition, as something to compute beforehand

  /** The `k` largest capacities never exceed what the rows can give to `k` columns. */
  predicate Placeable(needs: seq<nat>, caps: seq<nat>) {
    var keys := BucketKeys(caps, caps);
    forall k :: 0 <= k <= |caps| ==> SumIn(caps, Top(keys, k)) <= Room(needs, k)
  }

  lemma TopIsHeaviest(caps: seq<nat>, at: set<nat>)
    requires at <= Indices(|caps|) && |at| <= |caps|
    ensures SumIn(caps, at) <= SumIn(caps, Top(BucketKeys(caps, caps), |at|))
  {
    var top := Top(BucketKeys(caps, caps), |at|);
    TopIsLargest(caps, |at|);
    if at == {} {
      assert top == {};
    } else {
      Overlaps(caps, top, at);
      Overlaps(caps, at, top);
      assert top * at == at * top && top + at == at + top;
      assert |top - at| == |at - top|;
      var v := Bracket(caps, top, at);
    }
  }

  lemma TopIsLargest(caps: seq<nat>, k: nat)
    requires k <= |caps|
    ensures Largest(caps, Top(BucketKeys(caps, caps), k)) && |Top(BucketKeys(caps, caps), k)| == k
  {
    var keys := BucketKeys(caps, caps);
    TopLeads(keys, k);
    forall i: nat, j: nat | i in Top(keys, k) && j < |caps| && j !in Top(keys, k)
      ensures caps[i] >= caps[j]
    {
      assert Before(keys, i, j);
    }
  }

  lemma BalancedIsPlaceable(needs: seq<nat>, caps: seq<nat>)
    ensures Balanced(needs, caps) <==> Placeable(needs, caps)
  {
    var keys := BucketKeys(caps, caps);
    if Placeable(needs, caps) {
      forall at: set<nat> | at <= Indices(|caps|)
        ensures Fits(needs, caps, at)
      {
        SubsetSize(at, Indices(|caps|));
        TopIsHeaviest(caps, at);
      }
    }
    if Balanced(needs, caps) {
      forall k | 0 <= k <= |caps|
        ensures SumIn(caps, Top(keys, k)) <= Room(needs, k)
      {
        TopIsLargest(caps, k);
        assert Fits(needs, caps, Top(keys, k));
      }
    }
  }

  /**
   * Rows short of at most two units are always served, provided no column asks for
   * more units than there are rows in need.
   */
  lemma AtMostTwoIsBalanced(needs: seq<nat>, caps: seq<nat>)
    requires Sum(needs) == Sum(caps)
    requires forall r :: 0 <= r < |needs| ==> needs[r] <= 2
    requires forall j :: 0 <= j < |caps| ==> caps[j] <= Room(needs, 1)
    ensures Balanced(needs, caps)
  {
    forall at: set<nat> | at <= Indices(|caps|)
      ensures Fits(needs, caps, at)
    {
      if |at| >= 2 {
        RoomAtMostSum(needs, |at|);
        SumInPart(caps, at);
      } else {
        SumInAtMost(caps, at, Room(needs, 1));
        if |at| == 0 {
          assert SumIn(caps, at) <= 0;
        }
      }
    }
  }

  lemma SumInPart(s: seq<nat>, at: set<nat>)
    requires at <= Indices(|s|)
    ensures SumIn(s, at) <= Sum(s)
  {
    var rest := Indices(|s|) - at;
    SumInDisjoint(s, at, rest);
    SumInAtLeast(s, rest, 0);
    SumInAll(s, at + rest);
  }
}
