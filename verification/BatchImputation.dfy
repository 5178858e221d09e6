/**
 * Splitting a batch of totals so that every row adds up to its own total and every bucket
 * adds up to the split of the batch total.
 */
module BatchImputation {
  import opened Sums
  import opened Ranking
  import opened GaleRyser
  import opened TokenImputation
  import opened Words

  /** What the source's batch call does: rows, or the panic it ends in. */
  datatype Outcome =
    | Rows(rows: seq<seq<nat>>)
    | TotalOverflow
    | ColumnFloorExceeded
    | RowNeedLeft
    | CapacityLeft

  /** The sum of the positive totals. */
  function BatchTotal(totals: seq<int>): nat {
    if |totals| == 0 then 0 else BatchTotal(totals[..|totals| - 1]) + Positive(totals[|totals| - 1])
  }

  function Needs(s: Shares, totals: seq<int>): (r: seq<nat>)
    requires Proper(s)
    ensures |r| == |totals|
  {
    seq(|totals|, r requires 0 <= r < |totals| => Need(s, Positive(totals[r])))
  }

  function AllRemainders(s: Shares, totals: seq<int>): (r: seq<seq<nat>>)
    requires Proper(s)
    ensures |r| == |totals| && forall i :: 0 <= i < |r| ==> |r[i]| == |s.numerators|
  {
    seq(|totals|, r requires 0 <= r < |totals| => Remainders(s, Positive(totals[r])))
  }

  function AllFloors(s: Shares, totals: seq<int>): (r: seq<seq<nat>>)
    requires Proper(s)
    ensures |r| == |totals| && forall i :: 0 <= i < |r| ==> |r[i]| == |s.numerators|
  {
    seq(|totals|, r requires 0 <= r < |totals| => Floors(s, Positive(totals[r])))
  }

  /** The floors of one bucket over all rows. */
  function ColumnFloor(s: Shares, totals: seq<int>, j: nat): nat
    requires Proper(s) && j < |s.numerators|
  {
    if |totals| == 0 then 0
    else ColumnFloor(s, totals[..|totals| - 1], j) + Floor(s, Positive(totals[|totals| - 1]), j)
  }

  function ColumnFloors(s: Shares, totals: seq<int>): (r: seq<nat>)
    requires Proper(s)
    ensures |r| == |s.numerators|
  {
    seq(|s.numerators|, j requires 0 <= j < |s.numerators| => ColumnFloor(s, totals, j))
  }

  /** What each bucket of the batch still lacks once all floors are given out. */
  function Gaps(s: Shares, totals: seq<int>): (r: seq<int>)
    requires Proper(s)
    ensures |r| == |s.numerators|
  {
    var target := Impute(s, BatchTotal(totals));
    seq(|s.numerators|, j requires 0 <= j < |s.numerators| => target[j] - ColumnFloor(s, totals, j))
  }

  function RowKeys(needs: seq<nat>): (keys: seq<Key>)
    ensures |keys| == |needs|
  {
    seq(|needs|, r requires 0 <= r < |needs| => Key(needs[r], 0))
  }

  /** Rows short of most units first. */
  function RowOrder(needs: seq<nat>): (order: seq<nat>)
    ensures InRange(order, |needs|) && |order| == |needs|
  {
    RankedIndices(RowKeys(needs))
  }

  function Greedy(s: Shares, totals: seq<int>, caps: seq<nat>): (f: Fill)
    requires Proper(s) && |caps| == |s.numerators|
    ensures |f.needs| == |f.placed| == |totals| && |f.caps| == |caps|
  {
    var needs := Needs(s, totals);
    ServeAll(Start(needs, caps), AllRemainders(s, totals), RowOrder(needs))
  }

  function Filled(floors: seq<seq<nat>>, placed: seq<set<nat>>): (r: seq<seq<nat>>)
    requires |floors| == |placed|
    ensures |r| == |floors| && forall i :: 0 <= i < |r| ==> r[i] == AddUnits(floors[i], placed[i])
  {
    seq(|floors|, i requires 0 <= i < |floors| => AddUnits(floors[i], placed[i]))
  }

  function Batch(s: Shares, totals: seq<int>): Outcome
    requires Proper(s)
  {
    if |totals| == 0 then Rows([])
    else if BatchTotal(totals) > I64_MAX then TotalOverflow
    else if exists j :: 0 <= j < |s.numerators| && Gaps(s, totals)[j] < 0 then ColumnFloorExceeded
    else
      Verdict(AllFloors(s, totals), Greedy(s, totals, Gaps(s, totals)))
  }

  /** The two final assertions, in order. */
  function Verdict(floors: seq<seq<nat>>, f: Fill): Outcome
    requires |floors| == |f.placed|
  {
    if !Served(f) then RowNeedLeft
    else if !Emptied(f) then CapacityLeft
    else Rows(Filled(floors, f.placed))
  }

  // ----- Gaps

  lemma {:induction false} GapsMatchNeeds(s: Shares, totals: seq<int>)
    requires Proper(s)
    ensures Sum(ColumnFloors(s, totals)) + Sum(Needs(s, totals)) == BatchTotal(totals)
  {
    var m := |totals|;
    if m == 0 {
      SumZero(ColumnFloors(s, totals));
    } else {
      var before, last := totals[..m - 1], Positive(totals[m - 1]);
      GapsMatchNeeds(s, before);
      SumLinear(ColumnFloors(s, before), Floors(s, last), ColumnFloors(s, totals), 1, 1);
      assert Needs(s, totals)[..m - 1] == Needs(s, before);
    }
  }

  /** All the rows lack together is what all the buckets lack together. */
  lemma GapsSum(s: Shares, totals: seq<int>)
    requires Proper(s)
    ensures Sum(Gaps(s, totals)) == Sum(Needs(s, totals))
  {
    var target := Impute(s, BatchTotal(totals));
    GapsMatchNeeds(s, totals);
    ImputeIsExact(s, BatchTotal(totals));
    SumLinear(target, ColumnFloors(s, totals), Gaps(s, totals), 1, -1);
  }

  /** The remainders of one bucket over all rows. */
  function ColumnRemainder(s: Shares, totals: seq<int>, j: nat): nat
    requires Proper(s) && j < |s.numerators|
  {
    if |totals| == 0 then 0
    else ColumnRemainder(s, totals[..|totals| - 1], j) + Remainder(s, Positive(totals[|totals| - 1]), j)
  }

  lemma {:induction false} ColumnShare(s: Shares, totals: seq<int>, j: nat)
    requires Proper(s) && j < |s.numerators|
    ensures BatchTotal(totals) * s.numerators[j]
         == s.denominator * ColumnFloor(s, totals, j) + ColumnRemainder(s, totals, j)
  {
    var m := |totals|;
    if m > 0 {
      var before, last := totals[..m - 1], Positive(totals[m - 1]);
      ColumnShare(s, before, j);
      FloorRemainder(s, last, j);
      Distribute(BatchTotal(before), last, s.numerators[j]);
      assert s.denominator * ColumnFloor(s, totals, j)
          == s.denominator * ColumnFloor(s, before, j) + s.denominator * Floor(s, last, j);
    }
  }

  /** A row with a remainder in any bucket is short of at least one unit. */
  lemma RemainderShowsNeed(s: Shares, total: nat, j: nat)
    requires Proper(s) && j < |s.numerators|
    ensures Remainder(s, total, j) <= Min(Need(s, total), 1) * (s.denominator - 1)
  {
    FloorRemainder(s, total, j);
    if Need(s, total) == 0 {
      RemaindersSum(s, total);
      SumZero(Remainders(s, total));
      assert Remainders(s, total)[j] == 0;
    } else {
      assert Min(Need(s, total), 1) == 1;
    }
  }

  lemma RoomOfLast(s: Shares, totals: seq<int>)
    requires Proper(s) && |totals| > 0
    ensures var before, last := totals[..|totals| - 1], Positive(totals[|totals| - 1]);
      Room(Needs(s, totals), 1) == Room(Needs(s, before), 1) + Min(Need(s, last), 1)
  {
    assert Needs(s, totals)[..|totals| - 1] == Needs(s, totals[..|totals| - 1]);
  }

  lemma {:induction false} ColumnRemainderBound(s: Shares, totals: seq<int>, j: nat)
    requires Proper(s) && j < |s.numerators|
    ensures ColumnRemainder(s, totals, j) <= Room(Needs(s, totals), 1) * (s.denominator - 1)
  {
    var m := |totals|;
    if m > 0 {
      var before, last := totals[..m - 1], Positive(totals[m - 1]);
      ColumnRemainderBound(s, before, j);
      RemainderShowsNeed(s, last, j);
      RoomOfLast(s, totals);
      Distribute(Room(Needs(s, before), 1), Min(Need(s, last), 1), s.denominator - 1);
    }
  }

  lemma Cancel(d: int, a: int, b: int)
    requires d > 0 && d * a < d * b
    ensures a < b
  {
    assert d * (a - b) == d * a - d * b;
    assert a >= b ==> d * (a - b) >= 0;
  }

  lemma GapShare(d: int, share: int, floors: int, rems: int, f: int, r: int)
    requires share == d * floors + rems && share == d * f + r
    ensures d * (f - floors) == rems - r
  {
  }

  lemma GapArithmetic(d: int, gap: int, rems: nat, r: nat, u: nat, k: nat)
    requires 0 <= r < d && (u == 0 || (u == 1 && r > 0))
    requires d * gap == rems - r && rems <= k * (d - 1)
    ensures 0 <= gap + u <= k
  {
    assert d * -1 == -d;
    Cancel(d, -1, gap);
    assert d * (gap + u) == d * gap + d * u;
    assert d * (k + 1) == k * (d - 1) + k + d;
    Cancel(d, gap + u, k + 1);
  }

  /** No bucket's floors exceed its target, and it lacks at most one unit per row in need. */
  lemma GapBounds(s: Shares, totals: seq<int>, j: nat)
    requires Proper(s) && j < |s.numerators|
    ensures 0 <= Gaps(s, totals)[j] <= Room(Needs(s, totals), 1)
  {
    var t := BatchTotal(totals);
    ColumnShare(s, totals, j);
    ColumnRemainderBound(s, totals, j);
    FloorRemainder(s, t, j);
    if Remainder(s, t, j) == 0 {
      WholeShareIsKept(s, t, j);
    }
    var floors: int, f: int, d: int := ColumnFloor(s, totals, j), Floor(s, t, j), s.denominator;
    var rems, r, k := ColumnRemainder(s, totals, j), Remainder(s, t, j), Room(Needs(s, totals), 1);
    GapShare(d, t * s.numerators[j], floors, rems, f, r);
    GapArithmetic(d, f - floors, rems, r, if j in Bumped(s, t) then 1 else 0, k);
  }

  /** The gaps as capacities. */
  function Caps(s: Shares, totals: seq<int>): (r: seq<nat>)
    requires Proper(s)
    ensures r == Gaps(s, totals)
  {
    assert forall j: nat :: j < |s.numerators| ==> Gaps(s, totals)[j] >= 0 by {
      forall j: nat | j < |s.numerators|
        ensures Gaps(s, totals)[j] >= 0
      {
        GapBounds(s, totals, j);
      }
    }
    Gaps(s, totals)
  }

  // ----- When the batch succeeds

  /** A batch the source accepts at all: not empty, and its positive totals fit a 64-bit sum. */
  predicate InScope(totals: seq<int>) {
    |totals| > 0 && BatchTotal(totals) <= I64_MAX
  }

  lemma GreedyOutcome(s: Shares, totals: seq<int>)
    requires Proper(s)
    ensures var f, needs, caps := Greedy(s, totals, Caps(s, totals)), Needs(s, totals), Caps(s, totals);
      && (Served(f) <==> Feasible(needs, caps))
      && (Served(f) <==> Balanced(needs, caps))
      && (Served(f) <==> Emptied(f))
      && (Served(f) ==> IsFilling(f.placed, needs, caps))
  {
    var needs, caps := Needs(s, totals), Caps(s, totals);
    GapsSum(s, totals);
    RankingSorted(RowKeys(needs));
    GreedyIsComplete(needs, caps, AllRemainders(s, totals), RowOrder(needs));
  }

  /**
   * The batch ends in rows or in the first of the two final assertions, never in the
   * others. Which one is decided by a check on the needs and gaps alone.
   */
  lemma BatchOutcome(s: Shares, totals: seq<int>)
    requires Proper(s) && InScope(totals)
    ensures Batch(s, totals).Rows? || Batch(s, totals).RowNeedLeft?
    ensures Batch(s, totals).Rows? <==> Placeable(Needs(s, totals), Caps(s, totals))
    ensures Batch(s, totals).Rows? <==> Feasible(Needs(s, totals), Caps(s, totals))
  {
    assert Caps(s, totals) == Gaps(s, totals);
    GreedyOutcome(s, totals);
    BalancedIsPlaceable(Needs(s, totals), Caps(s, totals));
  }

  // ----- What a successful batch returns

  function ColumnSum(rows: seq<seq<nat>>, j: nat): nat
    requires forall r :: 0 <= r < |rows| ==> j < |rows[r]|
  {
    if |rows| == 0 then 0 else ColumnSum(rows[..|rows| - 1], j) + rows[|rows| - 1][j]
  }

  /**
   * A table that rounds every cell down or up by at most one unit, so that each row adds
   * up to its total and each bucket to the split of the batch total.
   */
  ghost predicate IsRounding(s: Shares, totals: seq<int>, rows: seq<seq<nat>>)
    requires Proper(s)
  {
    && |rows| == |totals|
    && (forall r :: 0 <= r < |rows| ==> |rows[r]| == |s.numerators|)
    && (forall r :: 0 <= r < |rows| ==> Sum(rows[r]) == Positive(totals[r]))
    && (forall j: nat :: j < |s.numerators| ==> ColumnSum(rows, j) == Impute(s, BatchTotal(totals))[j])
    && (forall r, j: nat :: 0 <= r < |rows| && j < |s.numerators| ==>
          Floor(s, Positive(totals[r]), j) <= rows[r][j] <= Floor(s, Positive(totals[r]), j) + 1)
  }

  lemma {:induction false} ColumnSumOfFilled(
      s: Shares, totals: seq<int>, rows: seq<seq<nat>>, placed: seq<set<nat>>, j: nat)
    requires Proper(s) && |placed| == |totals| == |rows| && j < |s.numerators|
    requires forall r :: 0 <= r < |rows| ==> |rows[r]| == |s.numerators|
    requires forall r :: 0 <= r < |rows| ==>
               rows[r][j] == Floor(s, Positive(totals[r]), j) + if j in placed[r] then 1 else 0
    ensures ColumnSum(rows, j) == ColumnFloor(s, totals, j) + Occurrences(placed, j)
  {
    var m := |totals|;
    if m > 0 {
      ColumnSumOfFilled(s, totals[..m - 1], rows[..m - 1], placed[..m - 1], j);
    }
  }

  lemma FillingIsRounding(s: Shares, totals: seq<int>, placed: seq<set<nat>>)
    requires Proper(s) && IsFilling(placed, Needs(s, totals), Caps(s, totals))
    ensures IsRounding(s, totals, Filled(AllFloors(s, totals), placed))
  {
    var rows := Filled(AllFloors(s, totals), placed);
    forall r | 0 <= r < |rows|
      ensures Sum(rows[r]) == Positive(totals[r])
    {
      AddUnitsSum(Floors(s, Positive(totals[r])), placed[r]);
    }
    forall j: nat | j < |s.numerators|
      ensures ColumnSum(rows, j) == Impute(s, BatchTotal(totals))[j]
    {
      ColumnSumOfFilled(s, totals, rows, placed, j);
    }
  }

  /** The cells of the row that were rounded up. */
  function RoundedUp(row: seq<nat>, floors: seq<nat>): (hit: set<nat>)
    requires |row| == |floors|
    ensures hit <= Indices(|row|)
    ensures forall j :: j in hit <==> j in Indices(|row|) && row[j] > floors[j]
  {
    set j | j in Indices(|row|) && row[j] > floors[j]
  }

  lemma RoundedRow(row: seq<nat>, floors: seq<nat>)
    requires |row| == |floors|
    requires forall j :: 0 <= j < |row| ==> floors[j] <= row[j] <= floors[j] + 1
    ensures row == AddUnits(floors, RoundedUp(row, floors))
    ensures Sum(row) == Sum(floors) + |RoundedUp(row, floors)|
  {
    assert row == AddUnits(floors, RoundedUp(row, floors));
    AddUnitsSum(floors, RoundedUp(row, floors));
  }

  /** What a rounding places: in every row, the cells above their floors. */
  function PlacedBy(rows: seq<seq<nat>>, floors: seq<seq<nat>>): (placed: seq<set<nat>>)
    requires |rows| == |floors| && forall r :: 0 <= r < |rows| ==> |rows[r]| == |floors[r]|
    ensures |placed| == |rows|
  {
    seq(|rows|, r requires 0 <= r < |rows| => RoundedUp(rows[r], floors[r]))
  }

  lemma RoundingFillsRows(s: Shares, totals: seq<int>, rows: seq<seq<nat>>)
    requires Proper(s) && IsRounding(s, totals, rows)
    ensures var placed := PlacedBy(rows, AllFloors(s, totals));
      forall r :: 0 <= r < |rows| ==> |placed[r]| == Needs(s, totals)[r]
  {
    forall r | 0 <= r < |rows|
      ensures |PlacedBy(rows, AllFloors(s, totals))[r]| == Needs(s, totals)[r]
    {
      RoundedRow(rows[r], AllFloors(s, totals)[r]);
    }
  }

  lemma RoundingFillsColumn(s: Shares, totals: seq<int>, rows: seq<seq<nat>>, j: nat)
    requires Proper(s) && IsRounding(s, totals, rows) && j < |s.numerators|
    ensures Occurrences(PlacedBy(rows, AllFloors(s, totals)), j) == Caps(s, totals)[j]
  {
    var placed := PlacedBy(rows, AllFloors(s, totals));
    forall r | 0 <= r < |rows|
      ensures rows[r][j] == Floor(s, Positive(totals[r]), j) + if j in placed[r] then 1 else 0
    {
      assert AllFloors(s, totals)[r][j] == Floor(s, Positive(totals[r]), j);
    }
    ColumnSumOfFilled(s, totals, rows, placed, j);
  }

  lemma RoundingIsFilling(s: Shares, totals: seq<int>, rows: seq<seq<nat>>) returns (placed: seq<set<nat>>)
    requires Proper(s) && IsRounding(s, totals, rows)
    ensures IsFilling(placed, Needs(s, totals), Caps(s, totals))
  {
    placed := PlacedBy(rows, AllFloors(s, totals));
    RoundingFillsRows(s, totals, rows);
    forall j: nat | j < |s.numerators|
      ensures Occurrences(placed, j) == Caps(s, totals)[j]
    {
      RoundingFillsColumn(s, totals, rows, j);
    }
  }

  /**
   * The batch returns rows exactly when a rounding of the whole table exists, and what it
   * returns is one: rows add up to their totals, buckets to the split of the batch total.
   */
  lemma BatchRounds(s: Shares, totals: seq<int>)
    requires Proper(s) && InScope(totals)
    ensures Batch(s, totals).Rows? <==> exists rows :: IsRounding(s, totals, rows)
    ensures Batch(s, totals).Rows? ==> IsRounding(s, totals, Batch(s, totals).rows)
  {
    assert Caps(s, totals) == Gaps(s, totals);
    BatchOutcome(s, totals);
    GreedyOutcome(s, totals);
    if Batch(s, totals).Rows? {
      FillingIsRounding(s, totals, Greedy(s, totals, Caps(s, totals)).placed);
    }
    if rows :| IsRounding(s, totals, rows) {
      var placed := RoundingIsFilling(s, totals, rows);
    }
  }

  // ----- Conditions under which no assertion can fire

  /** Rows short of at most two units each never fail. */
  lemma AtMostTwoShortSucceeds(s: Shares, totals: seq<int>)
    requires Proper(s) && InScope(totals)
    requires forall r :: 0 <= r < |totals| ==> Need(s, Positive(totals[r])) <= 2
    ensures Batch(s, totals).Rows?
  {
    forall j | 0 <= j < |s.numerators|
      ensures Caps(s, totals)[j] <= Room(Needs(s, totals), 1)
    {
      GapBounds(s, totals, j);
    }
    GapsSum(s, totals);
    AtMostTwoIsBalanced(Needs(s, totals), Caps(s, totals));
    BatchOutcome(s, totals);
    BalancedIsPlaceable(Needs(s, totals), Caps(s, totals));
  }

  lemma {:induction false} OnlyRowInColumn(rows: seq<seq<nat>>, p: nat, j: nat)
    requires forall r :: 0 <= r < |rows| ==> j < |rows[r]| && (r == p || rows[r][j] == 0)
    ensures ColumnSum(rows, j) == if p < |rows| then rows[p][j] else 0
  {
    if |rows| > 0 {
      OnlyRowInColumn(rows[..|rows| - 1], p, j);
    }
  }

  lemma {:induction false} OnlyTotal(totals: seq<int>, p: nat)
    requires forall r :: 0 <= r < |totals| && r != p ==> totals[r] <= 0
    ensures BatchTotal(totals) == if p < |totals| then Positive(totals[p]) else 0
  {
    if |totals| > 0 {
      OnlyTotal(totals[..|totals| - 1], p);
    }
  }

  lemma SilentRow(s: Shares, total: int)
    requires Proper(s) && total <= 0
    ensures Impute(s, total) == seq(|s.numerators|, _ => 0)
  {
    NothingToSplit(s);
  }

  lemma SingleColumn(s: Shares, totals: seq<int>, p: nat, rows: seq<seq<nat>>, j: nat)
    requires Proper(s) && p < |totals| == |rows| && j < |s.numerators|
    requires forall r :: 0 <= r < |totals| && r != p ==> totals[r] <= 0
    requires forall r :: 0 <= r < |rows| ==> rows[r] == Impute(s, totals[r]) && |rows[r]| == |s.numerators|
    ensures ColumnSum(rows, j) == Impute(s, totals[p])[j]
  {
    forall r | 0 <= r < |rows| && r != p
      ensures rows[r][j] == 0
    {
      SilentRow(s, totals[r]);
    }
    OnlyRowInColumn(rows, p, j);
  }

  lemma ImputedCell(s: Shares, total: int, j: nat)
    requires Proper(s) && j < |s.numerators|
    ensures Floor(s, Positive(total), j) <= Impute(s, total)[j] <= Floor(s, Positive(total), j) + 1
  {
  }

  /** The table that gives one row the single split and nothing to the others. */
  lemma SingleTable(s: Shares, totals: seq<int>, p: nat) returns (rows: seq<seq<nat>>)
    requires Proper(s) && p < |totals|
    requires forall r :: 0 <= r < |totals| && r != p ==> totals[r] <= 0
    ensures IsRounding(s, totals, rows)
  {
    rows := seq(|totals|, r requires 0 <= r < |totals| => Impute(s, totals[r]));
    OnlyTotal(totals, p);
    forall r | 0 <= r < |totals|
      ensures Sum(rows[r]) == Positive(totals[r])
    {
      ImputeIsExact(s, totals[r]);
    }
    forall r, j: nat | 0 <= r < |rows| && j < |s.numerators|
      ensures Floor(s, Positive(totals[r]), j) <= rows[r][j] <= Floor(s, Positive(totals[r]), j) + 1
    {
      ImputedCell(s, totals[r], j);
    }
    SingleColumns(s, totals, p, rows);
  }

  lemma SingleColumns(s: Shares, totals: seq<int>, p: nat, rows: seq<seq<nat>>)
    requires Proper(s) && p < |totals| == |rows| && BatchTotal(totals) == Positive(totals[p])
    requires forall r :: 0 <= r < |totals| && r != p ==> totals[r] <= 0
    requires forall r :: 0 <= r < |rows| ==> rows[r] == Impute(s, totals[r]) && |rows[r]| == |s.numerators|
    ensures forall j: nat :: j < |s.numerators| ==> ColumnSum(rows, j) == Impute(s, BatchTotal(totals))[j]
  {
    forall j: nat | j < |s.numerators|
      ensures ColumnSum(rows, j) == Impute(s, BatchTotal(totals))[j]
    {
      SingleColumn(s, totals, p, rows, j);
    }
  }

  /** In any rounding of a batch with one positive total, that row is the split of it. */
  lemma SingleRow(s: Shares, totals: seq<int>, p: nat, rows: seq<seq<nat>>)
    requires Proper(s) && p < |totals| && IsRounding(s, totals, rows)
    requires forall r :: 0 <= r < |totals| && r != p ==> totals[r] <= 0
    ensures rows[p] == Impute(s, totals[p])
  {
    OnlyTotal(totals, p);
    forall j: nat | j < |s.numerators|
      ensures rows[p][j] == Impute(s, totals[p])[j]
    {
      SilentColumn(s, totals, p, rows, j);
      OnlyRowInColumn(rows, p, j);
    }
  }

  lemma SilentColumn(s: Shares, totals: seq<int>, p: nat, rows: seq<seq<nat>>, j: nat)
    requires Proper(s) && IsRounding(s, totals, rows) && j < |s.numerators|
    requires forall r :: 0 <= r < |totals| && r != p ==> totals[r] <= 0
    ensures forall r :: 0 <= r < |rows| && r != p ==> rows[r][j] == 0
  {
    forall r | 0 <= r < |rows| && r != p
      ensures rows[r][j] == 0
    {
      SumZero(rows[r]);
    }
  }

  /** A batch with one positive total reproduces the split of that total. */
  lemma SinglePositiveTotal(s: Shares, totals: seq<int>, p: nat)
    requires Proper(s) && InScope(totals) && p < |totals|
    requires forall r :: 0 <= r < |totals| && r != p ==> totals[r] <= 0
    ensures Batch(s, totals).Rows?
    ensures Batch(s, totals).rows[p] == Impute(s, totals[p])
  {
    var table := SingleTable(s, totals, p);
    BatchRounds(s, totals);
    SingleRow(s, totals, p, Batch(s, totals).rows);
  }

  // ----- A batch of the bundled shares that fails

  const UNROUNDABLE: seq<int> := [42_486, 74_731]

  lemma UnroundableNeeds()
    ensures Proper(BUNDLED) && Needs(BUNDLED, UNROUNDABLE) == [3, 1] && BatchTotal(UNROUNDABLE) == 117_217
    ensures Need(BUNDLED, 117_217) == 2
    ensures ColumnFloor(BUNDLED, UNROUNDABLE, 3) == 451 && ColumnFloor(BUNDLED, UNROUNDABLE, 4) == 153
  {
    BundledIsProper();
    assert Floors(BUNDLED, 42_486) == [3_437, 177, 38_651, 163, 55];
    Sum5([3_437, 177, 38_651, 163, 55]);
    assert Floors(BUNDLED, 74_731) == [6_046, 312, 67_986, 288, 98];
    Sum5([6_046, 312, 67_986, 288, 98]);
    assert Floors(BUNDLED, 117_217) == [9_483, 489, 106_637, 452, 154];
    Sum5([9_483, 489, 106_637, 452, 154]);
    assert UNROUNDABLE[..1] == [42_486] && UNROUNDABLE[..1][..0] == [];
  }

  lemma UnroundableRemainders()
    requires Proper(BUNDLED)
    ensures Remainder(BUNDLED, 117_217, 0) == 7_844_368_711 && Remainder(BUNDLED, 117_217, 1) == 11_660_845_834
    ensures Remainder(BUNDLED, 117_217, 2) == 10_438_362_905 && Remainder(BUNDLED, 117_217, 3) == 11_681_102_047
    ensures Remainder(BUNDLED, 117_217, 4) == 12_338_148_431
  {
  }

  /** The batch total rounds up exactly cache writes and reasoning. */
  lemma UnroundableTarget()
    requires Proper(BUNDLED) && Need(BUNDLED, 117_217) == 2
    ensures Bumped(BUNDLED, 117_217) == {3, 4}
  {
    var keys := RemainderKeys(BUNDLED, 117_217);
    UnroundableRemainders();
    assert keys == [Key(7_844_368_711, 0), Key(11_660_845_834, 0), Key(10_438_362_905, 0),
                    Key(11_681_102_047, 0), Key(12_338_148_431, 0)];
    assert Leading(keys, {3, 4});
    assert |{3, 4}| == 2;
    BumpedLeads(BUNDLED, 117_217);
    LeadingIsUnique(keys, Bumped(BUNDLED, 117_217), {3, 4});
  }

  /** Two buckets may each take two more, but the second row has one unit only. */
  lemma Overdrawn(needs: seq<nat>, caps: seq<nat>)
    requires needs == [3, 1] && |caps| == 5 && caps[3] == 2 && caps[4] == 2
    ensures !Balanced(needs, caps)
  {
    var at: set<nat> := {3, 4};
    SumInAtLeast(caps, at, 2);
    assert |at| == 2;
    assert needs[..1] == [3] && needs[..1][..0] == [];
    assert Room(needs[..1], 2) == 2;
    assert !Fits(needs, caps, at);
  }

  lemma UnroundableOverdrawn()
    ensures Proper(BUNDLED) && !Balanced(Needs(BUNDLED, UNROUNDABLE), Caps(BUNDLED, UNROUNDABLE))
  {
    UnroundableNeeds();
    UnroundableTarget();
    Overdrawn(Needs(BUNDLED, UNROUNDABLE), Caps(BUNDLED, UNROUNDABLE));
  }

  /**
   * The two final assertions can fire: no table of these two rows adds up both ways, so
   * the batch call fails on them.
   */
  lemma UnroundableBatchFails()
    ensures Proper(BUNDLED) && Batch(BUNDLED, UNROUNDABLE) == RowNeedLeft
    ensures !exists rows :: IsRounding(BUNDLED, UNROUNDABLE, rows)
  {
    UnroundableNeeds();
    UnroundableOverdrawn();
    UnbalancedFails(BUNDLED, UNROUNDABLE);
  }

  lemma UnbalancedFails(s: Shares, totals: seq<int>)
    requires Proper(s) && InScope(totals) && !Balanced(Needs(s, totals), Caps(s, totals))
    ensures Batch(s, totals) == RowNeedLeft && !exists rows :: IsRounding(s, totals, rows)
  {
    BalancedIsPlaceable(Needs(s, totals), Caps(s, totals));
    BatchOutcome(s, totals);
    BatchRounds(s, totals);
  }

  // ----- The in-place algorithm

  lemma PlacedOneMore(order: seq<nat>, caps: seq<nat>, need: nat, p: nat)
    requires InRange(order, |caps|) && p < |order| && |Placed(order, caps, need, p)| == need
    ensures Placed(order, caps, need, p + 1) == Placed(order, caps, need, p)
  {
  }

  lemma {:induction false} PlacedStops(order: seq<nat>, caps: seq<nat>, need: nat, p: nat, n: nat)
    requires InRange(order, |caps|) && p <= n <= |order|
    requires |Placed(order, caps, need, p)| == need
    ensures Placed(order, caps, need, n) == Placed(order, caps, need, p)
    decreases n - p
  {
    if p < n {
      PlacedOneMore(order, caps, need, p);
      PlacedStops(order, caps, need, p + 1, n);
    }
  }

  lemma PlacedIsNew(order: seq<nat>, caps: seq<nat>, need: nat, p: nat)
    requires InRange(order, |caps|) && Distinct(order) && p < |order|
    ensures order[p] !in Placed(order, caps, need, p)
  {
    if order[p] in Placed(order, caps, need, p) {
      var q := PlacedBefore(order, caps, need, p, order[p]);
    }
  }

  lemma OneMoreUnit(values: seq<nat>, hit: set<nat>, b: nat)
    requires b < |values| && b !in hit
    ensures AddUnits(values, hit)[b := AddUnits(values, hit)[b] + 1] == AddUnits(values, hit + {b})
  {
  }

  lemma OneMoreDebit(caps: seq<nat>, hit: set<nat>, b: nat)
    requires b < |caps| && b !in hit && caps[b] > 0
    requires forall j :: j in hit ==> j < |caps| && caps[j] > 0
    ensures Debit(caps, hit)[b := Debit(caps, hit)[b] - 1] == Debit(caps, hit + {b})
  {
  }

  /** One unit moves from a bucket's capacity to the row. */
  method MoveUnit(filled: seq<nat>, caps: array<nat>, bucket: nat,
                  ghost values: seq<nat>, ghost before: seq<nat>, ghost hit: set<nat>)
    returns (more: seq<nat>)
    requires bucket < |filled| == |values| == caps.Length == |before|
    requires bucket !in hit && caps[bucket] > 0
    requires forall j :: j in hit ==> j < |before| && before[j] > 0
    requires filled == AddUnits(values, hit) && caps[..] == Debit(before, hit)
    modifies caps
    ensures before[bucket] > 0
    ensures more == AddUnits(values, hit + {bucket}) && caps[..] == Debit(before, hit + {bucket})
  {
    assert before[bucket] == caps[..][bucket];
    OneMoreUnit(values, hit, bucket);
    OneMoreDebit(before, hit, bucket);
    more := filled[bucket := filled[bucket] + 1];
    caps[bucket] := caps[bucket] - 1;
    assert caps[..] == Debit(before, hit)[bucket := Debit(before, hit)[bucket] - 1];
  }

  /** One row's turn on the shared capacity buffer. */
  method ServeRow(values: seq<nat>, remainders: seq<nat>, need: nat, caps: array<nat>)
    returns (filled: seq<nat>, left: nat)
    requires |values| == |remainders| == caps.Length
    modifies caps
    ensures filled == AddUnits(values, Draw(old(caps[..]), remainders, need))
    ensures left == need - |Draw(old(caps[..]), remainders, need)|
    ensures caps[..] == Debit(old(caps[..]), Draw(old(caps[..]), remainders, need))
  {
    ghost var before := caps[..];
    var order := RankedIndices(BucketKeys(caps[..], remainders));
    RankingSorted(BucketKeys(before, remainders));
    ghost var hit: set<nat>;
    filled, left, hit := Walk(order, values, need, caps);
    assert hit == Draw(before, remainders, need);
  }

  /** The walk over the buckets in a given order, skipping exhausted ones, until the row is served. */
  method Walk(order: seq<nat>, values: seq<nat>, need: nat, caps: array<nat>)
    returns (filled: seq<nat>, left: nat, ghost hit: set<nat>)
    requires |values| == caps.Length && InRange(order, caps.Length) && Distinct(order)
    modifies caps
    ensures hit == Placed(order, old(caps[..]), need, |order|)
    ensures filled == AddUnits(values, hit)
    ensures left == need - |hit|
    ensures caps[..] == Debit(old(caps[..]), hit)
  {
    ghost var before := caps[..];
    filled, left, hit := values, need, {};
    var p := 0;
    while p < |order| && left != 0
      invariant 0 <= p <= |order|
      invariant hit == Placed(order, before, need, p)
      invariant filled == AddUnits(values, hit)
      invariant left == need - |hit|
      invariant caps[..] == Debit(before, hit)
    {
      PlacedIsNew(order, before, need, p);
      assert caps[order[p]] == before[order[p]];
      if caps[order[p]] != 0 {
        filled := MoveUnit(filled, caps, order[p], values, before, hit);
        left := left - 1;
        hit := hit + {order[p]};
      }
      p := p + 1;
    }
    if left == 0 {
      PlacedStops(order, before, need, p, |order|);
    }
  }

  /** The running sum of the positive totals, given up as soon as it leaves the 64-bit range. */
  method SumPositive(totals: seq<i64>) returns (fits: bool, sum: nat)
    ensures fits <==> BatchTotal(totals) <= I64_MAX
    ensures fits ==> sum == BatchTotal(totals)
  {
    sum := 0;
    for r := 0 to |totals|
      invariant sum == BatchTotal(totals[..r]) <= I64_MAX
    {
      assert totals[..r + 1][..r] == totals[..r];
      if totals[r] > 0 {
        if sum + totals[r] > I64_MAX {
          BatchTotalGrows(totals, r + 1);
          return false, 0;
        }
        sum := sum + totals[r];
      }
    }
    assert totals[..|totals|] == totals;
    fits := true;
  }

  lemma {:induction false} BatchTotalGrows(totals: seq<int>, r: nat)
    requires r <= |totals|
    ensures BatchTotal(totals[..r]) <= BatchTotal(totals)
  {
    if r == |totals| {
      assert totals[..r] == totals;
    } else {
      BatchTotalGrows(totals[..|totals| - 1], r);
      assert totals[..|totals| - 1][..r] == totals[..r];
    }
  }

  /** Every row split down to its floors, with the column sums kept on the side. */
  method SplitRows(s: Shares, totals: seq<i64>, columns: array<nat>)
    returns (values: seq<seq<nat>>, remainders: seq<seq<nat>>, needs: seq<nat>)
    requires Proper(s) && columns.Length == |s.numerators|
    requires forall j :: 0 <= j < columns.Length ==> columns[j] == 0
    modifies columns
    ensures values == AllFloors(s, totals) && remainders == AllRemainders(s, totals) && needs == Needs(s, totals)
    ensures columns[..] == ColumnFloors(s, totals)
  {
    var n := |s.numerators|;
    values, remainders, needs := [], [], [];
    NothingToSplit(s);
    for r := 0 to |totals|
      invariant values == AllFloors(s, totals)[..r]
      invariant remainders == AllRemainders(s, totals)[..r]
      invariant needs == Needs(s, totals)[..r]
      invariant columns[..] == ColumnFloors(s, totals[..r])
    {
      assert totals[..r + 1][..r] == totals[..r];
      if totals[r] <= 0 {
        values := values + [seq(n, _ => 0)];
        remainders := remainders + [seq(n, _ => 0)];
        needs := needs + [0];
        NoColumnChange(s, totals, r);
      } else {
        var rowValues, rowRemainders, spent := FloorBuckets(s, totals[r]);
        values := values + [rowValues[..]];
        remainders := remainders + [rowRemainders[..]];
        assert spent + Need(s, totals[r]) == totals[r];
        var need: nat := totals[r] - spent;
        needs := needs + [need];
        AddColumns(s, totals, r, rowValues, columns);
      }
    }
    assert totals[..|totals|] == totals;
  }

  /** The floors of one row are added to the column sums. */
  method AddColumns(s: Shares, totals: seq<int>, r: nat, rowValues: array<nat>, columns: array<nat>)
    requires Proper(s) && r < |totals| && columns.Length == |s.numerators| && rowValues != columns
    requires rowValues[..] == Floors(s, Positive(totals[r])) && columns[..] == ColumnFloors(s, totals[..r])
    modifies columns
    ensures columns[..] == ColumnFloors(s, totals[..r + 1])
  {
    assert totals[..r + 1][..r] == totals[..r];
    ghost var before := columns[..];
    for j := 0 to columns.Length
      invariant forall k: nat :: k < columns.Length ==> columns[k] == before[k] + if k < j then rowValues[k] else 0
      invariant rowValues[..] == Floors(s, Positive(totals[r]))
    {
      columns[j] := columns[j] + rowValues[j];
    }
  }

  lemma NoColumnChange(s: Shares, totals: seq<int>, r: nat)
    requires Proper(s) && r < |totals| && totals[r] <= 0
    ensures ColumnFloors(s, totals[..r + 1]) == ColumnFloors(s, totals[..r])
  {
    NothingToSplit(s);
    assert totals[..r + 1][..r] == totals[..r];
    assert forall j: nat :: j < |s.numerators| ==> Floors(s, 0)[j] == 0;
  }

  lemma FilledRow(floors: seq<seq<nat>>, placed: seq<set<nat>>, row: nat, hit: set<nat>)
    requires row < |floors| == |placed| && placed[row] == {}
    ensures Filled(floors, placed)[row] == floors[row]
    ensures Filled(floors, placed)[row := AddUnits(floors[row], hit)]
         == Filled(floors, placed[row := placed[row] + hit])
  {
    assert AddUnits(floors[row], {}) == floors[row];
    assert placed[row] + hit == hit;
  }

  /** The books of a fill in progress: what the rows hold, still need, and the buckets can take. */
  ghost predicate Tracks(f: Fill, floors: seq<seq<nat>>, rows: seq<seq<nat>>, left: seq<nat>, caps: seq<nat>) {
    && |f.placed| == |f.needs| == |floors|
    && rows == Filled(floors, f.placed) && left == f.needs && caps == f.caps
  }

  lemma ServeInFull(f: Fill, remainders: seq<seq<nat>>, row: nat)
    requires WellFormed(f, remainders) && row < |f.needs| && f.needs[row] != 0
    ensures var g, hit := Serve(f, remainders, row), Draw(f.caps, remainders[row], f.needs[row]);
      && g.needs == f.needs[row := f.needs[row] - |hit|]
      && g.placed == f.placed[row := f.placed[row] + hit]
      && g.caps == Debit(f.caps, hit)
  {
  }

  /** One row writes its filled values back and keeps what it still needs. */
  method FillRow(
      floors: seq<seq<nat>>, remainders: seq<seq<nat>>, row: nat,
      rows: seq<seq<nat>>, left: seq<nat>, caps: array<nat>, ghost f: Fill)
    returns (rows': seq<seq<nat>>, left': seq<nat>)
    requires WellFormed(f, remainders) && Tracks(f, floors, rows, left, caps[..])
    requires row < |rows| && |floors[row]| == caps.Length && f.placed[row] == {} && left[row] != 0
    modifies caps
    ensures Tracks(Serve(f, remainders, row), floors, rows', left', caps[..])
  {
    FilledRow(floors, f.placed, row, Draw(f.caps, remainders[row], f.needs[row]));
    ServeInFull(f, remainders, row);
    var values, rest := ServeRow(rows[row], remainders[row], left[row], caps);
    rows', left' := rows[row := values], left[row := rest];
  }

  /** All rows in the given order. */
  method FillRows(
      floors: seq<seq<nat>>, remainders: seq<seq<nat>>, needs: seq<nat>, order: seq<nat>, caps: array<nat>)
    returns (rows: seq<seq<nat>>, left: seq<nat>)
    requires |floors| == |remainders| == |needs| && InRange(order, |needs|) && Distinct(order)
    requires forall r :: 0 <= r < |floors| ==> |floors[r]| == |remainders[r]| == caps.Length
    modifies caps
    ensures Tracks(ServeAll(Start(needs, old(caps[..])), remainders, order), floors, rows, left, caps[..])
  {
    ghost var start := Start(needs, caps[..]);
    ghost var f := start;
    rows, left := floors, needs;
    assert Filled(floors, f.placed) == floors by {
      assert forall r :: 0 <= r < |floors| ==> AddUnits(floors[r], {}) == floors[r];
    }
    assert order[0..] == order;
    var i := 0;
    while i < |order|
      invariant 0 <= i <= |order|
      invariant WellFormed(f, remainders) && |f.needs| == |needs|
      invariant ServeAll(start, remainders, order) == ServeAll(f, remainders, order[i..])
      invariant Tracks(f, floors, rows, left, caps[..])
      invariant forall p :: i <= p < |order| ==> f.placed[order[p]] == {}
    {
      var row := order[i];
      assert order[i..][0] == row && order[i..][1..] == order[i + 1..];
      if left[row] != 0 {
        rows, left := FillRow(floors, remainders, row, rows, left, caps, f);
      }
      forall p | i < p < |order|
        ensures Serve(f, remainders, row).placed[order[p]] == {}
      {
        ServeLeavesOthers(f, remainders, row, order[p]);
      }
      f := Serve(f, remainders, row);
      i := i + 1;
    }
  }

  /** What every bucket lacks of its target, unless its floors already exceed it. */
  method FindGaps(s: Shares, totals: seq<i64>, target: seq<nat>, columns: array<nat>)
    returns (ok: bool, caps: array<nat>)
    requires Proper(s) && target == Impute(s, BatchTotal(totals)) && columns[..] == ColumnFloors(s, totals)
    ensures fresh(caps)
    ensures ok <==> !exists j :: 0 <= j < |s.numerators| && Gaps(s, totals)[j] < 0
    ensures ok ==> caps[..] == Gaps(s, totals)
  {
    var n := columns.Length;
    caps := new nat[n];
    for j := 0 to n
      invariant columns[..] == ColumnFloors(s, totals)
      invariant forall k :: 0 <= k < j ==> caps[k] == Gaps(s, totals)[k]
    {
      if target[j] < columns[j] {
        assert Gaps(s, totals)[j] < 0;
        return false, caps;
      }
      caps[j] := target[j] - columns[j];
    }
    ok := true;
  }

  /** The batch as the source runs it; each of its panics is an outcome. */
  method ImputeBatch(s: Shares, totals: seq<i64>) returns (outcome: Outcome)
    requires Proper(s)
    ensures outcome == Batch(s, totals)
  {
    if |totals| == 0 {
      return Rows([]);
    }
    var fits, sum := SumPositive(totals);
    if !fits {
      return TotalOverflow;
    }
    var target := ImputeTotal(s, sum);
    var columns := new nat[|s.numerators|](_ => 0);
    var floors, remainders, needs := SplitRows(s, totals, columns);
    var ok, caps := FindGaps(s, totals, target, columns);
    if !ok {
      return ColumnFloorExceeded;
    }
    RankingSorted(RowKeys(needs));
    var rows, left := FillRows(floors, remainders, needs, RowOrder(needs), caps);
    outcome := Conclude(floors, rows, left, caps[..], Greedy(s, totals, Gaps(s, totals)));
  }

  /** The two final assertions. */
  method Conclude(floors: seq<seq<nat>>, rows: seq<seq<nat>>, left: seq<nat>, caps: seq<nat>, ghost f: Fill)
    returns (outcome: Outcome)
    requires Tracks(f, floors, rows, left, caps)
    ensures outcome == Verdict(floors, f)
  {
    if !AllZero(left) {
      return RowNeedLeft;
    }
    if !AllZero(caps) {
      return CapacityLeft;
    }
    return Rows(rows);
  }
}
