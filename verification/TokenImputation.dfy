/**
 * Splitting one reported token total into buckets by fixed shares.
 *
 * Everything is stated for arbitrary shares; `BUNDLED` are the ones the source ships.
 */
module TokenImputation {
  import opened Sums
  import opened Ranking
  import opened GaleRyser
  import opened Words

  datatype Shares = Shares(numerators: seq<nat>, denominator: nat)

  ghost predicate Proper(s: Shares) {
    s.denominator > 0 && Sum(s.numerators) == s.denominator
  }

  /** The exact share of bucket `j` in `total` is `Floor + Remainder / denominator`. */
  function Floor(s: Shares, total: nat, j: nat): nat
    requires s.denominator > 0 && j < |s.numerators|
  {
    total * s.numerators[j] / s.denominator
  }

  function Remainder(s: Shares, total: nat, j: nat): nat
    requires s.denominator > 0 && j < |s.numerators|
  {
    total * s.numerators[j] % s.denominator
  }

  function Floors(s: Shares, total: nat): (r: seq<nat>)
    requires s.denominator > 0
    ensures |r| == |s.numerators|
  {
    seq(|s.numerators|, j requires 0 <= j < |s.numerators| => Floor(s, total, j))
  }

  function Remainders(s: Shares, total: nat): (r: seq<nat>)
    requires s.denominator > 0
    ensures |r| == |s.numerators|
  {
    seq(|s.numerators|, j requires 0 <= j < |s.numerators| => Remainder(s, total, j))
  }

  lemma FloorRemainder(s: Shares, total: nat, j: nat)
    requires s.denominator > 0 && j < |s.numerators|
    ensures total * s.numerators[j] == s.denominator * Floor(s, total, j) + Remainder(s, total, j)
    ensures Remainder(s, total, j) < s.denominator
  {
  }

  /** Units of the total that no floor accounts for. */
  function Need(s: Shares, total: nat): (k: nat)
    requires Proper(s)
    ensures k < |s.numerators|
    ensures Sum(Floors(s, total)) + k == total
  {
    RemaindersSum(s, total);
    total - Sum(Floors(s, total))
  }

  lemma RemaindersSum(s: Shares, total: nat)
    requires Proper(s)
    ensures Sum(Remainders(s, total)) == s.denominator * (total - Sum(Floors(s, total)))
    ensures 0 <= total - Sum(Floors(s, total)) < |s.numerators|
  {
    var d: int, n, rems, left := s.denominator, |s.numerators|, Remainders(s, total), total - Sum(Floors(s, total));
    forall j | 0 <= j < n
      ensures rems[j] == total * s.numerators[j] + (-d) * Floors(s, total)[j]
      ensures 0 <= rems[j] <= d - 1
    {
      FloorRemainder(s, total, j);
    }
    SumLinear(s.numerators, Floors(s, total), rems, total, -d);
    Factored(d, total, Sum(Floors(s, total)));
    SumBounds(rems, 0, d - 1);
    Between(d, left, n, Sum(rems));
  }

  lemma Factored(d: int, total: int, floors: int)
    ensures total * d + -d * floors == d * (total - floors)
  {
  }

  lemma Between(d: nat, k: int, n: nat, x: int)
    requires d > 0 && n > 0 && x == d * k && 0 <= x <= n * (d - 1)
    ensures 0 <= k < n
  {
    assert n * (d - 1) == d * n - n;
    assert k >= n ==> d * k >= d * n;
    assert k <= -1 ==> d * k <= d * -1;
  }

  // ----- One total

  function RemainderKeys(s: Shares, total: nat): (keys: seq<Key>)
    requires s.denominator > 0
    ensures |keys| == |s.numerators|
  {
    seq(|s.numerators|, j requires 0 <= j < |s.numerators| => Key(Remainder(s, total, j), 0))
  }

  /** The buckets rounded up: those with the largest remainders, as many as units are missing. */
  function Bumped(s: Shares, total: nat): set<nat>
    requires Proper(s)
  {
    Top(RemainderKeys(s, total), Need(s, total))
  }

  function AddUnits(values: seq<nat>, hit: set<nat>): (r: seq<nat>)
    ensures |r| == |values|
    ensures forall j: nat :: j < |values| ==> r[j] == values[j] + if j in hit then 1 else 0
  {
    seq(|values|, j requires 0 <= j < |values| => values[j] + if j in hit then 1 else 0)
  }

  function Positive(total: int): nat {
    if total <= 0 then 0 else total
  }

  /** The split of one total; a total that is not positive splits into nothing. */
  function Impute(s: Shares, total: int): (r: seq<nat>)
    requires Proper(s)
    ensures |r| == |s.numerators|
  {
    AddUnits(Floors(s, Positive(total)), Bumped(s, Positive(total)))
  }

  lemma AddUnitsSum(values: seq<nat>, hit: set<nat>)
    requires hit <= Indices(|values|)
    ensures Sum(AddUnits(values, hit)) == Sum(values) + |hit|
  {
    var all := Indices(|values|);
    SumInLowered(AddUnits(values, hit), values, hit, all);
    SumInAll(values, all);
    SumInAll(AddUnits(values, hit), all);
    assert hit * all == hit;
  }

  lemma BumpedLeads(s: Shares, total: nat)
    requires Proper(s)
    ensures Leading(RemainderKeys(s, total), Bumped(s, total)) && |Bumped(s, total)| == Need(s, total)
    ensures Bumped(s, total) <= Indices(|s.numerators|)
  {
    TopLeads(RemainderKeys(s, total), Need(s, total));
  }

  /** A bucket left alone has no larger remainder than a bucket rounded up. */
  lemma BumpedRemainders(s: Shares, total: nat, i: nat, j: nat)
    requires Proper(s) && i in Bumped(s, total) && j < |s.numerators| && j !in Bumped(s, total)
    ensures i < |s.numerators| && Remainder(s, total, i) >= Remainder(s, total, j)
  {
    BumpedLeads(s, total);
    assert i in Indices(|s.numerators|);
    assert Before(RemainderKeys(s, total), i, j);
  }

  /** The split adds up to the reported total. */
  lemma ImputeIsExact(s: Shares, total: int)
    requires Proper(s)
    ensures Sum(Impute(s, total)) == Positive(total)
  {
    BumpedLeads(s, Positive(total));
    AddUnitsSum(Floors(s, Positive(total)), Bumped(s, Positive(total)));
  }

  /** A bucket whose exact share is a whole number receives exactly that number. */
  lemma WholeShareIsKept(s: Shares, total: nat, i: nat)
    requires Proper(s) && i < |s.numerators| && Remainder(s, total, i) == 0
    ensures i !in Bumped(s, total)
  {
    if i in Bumped(s, total) {
      var rems, hit := Remainders(s, total), Bumped(s, total);
      BumpedLeads(s, total);
      forall j: nat | j < |rems|
        ensures j in hit || rems[j] == 0
        ensures rems[j] <= s.denominator - 1
      {
        FloorRemainder(s, total, j);
        if j !in hit {
          BumpedRemainders(s, total, i, j);
        }
      }
      WithoutOne(rems, hit, i, s.denominator - 1);
      RemaindersSum(s, total);
      Crowded(s.denominator, |hit|);
    }
  }

  lemma WithoutOne(s: seq<nat>, hit: set<nat>, i: nat, bound: int)
    requires hit <= Indices(|s|) && i in hit && s[i] == 0
    requires forall j: nat | j < |s| :: (j in hit || s[j] == 0) && s[j] <= bound
    ensures Sum(s) <= (|hit| - 1) * bound
  {
    SumInAll(s, hit);
    SumInDisjoint(s, hit - {i}, {i});
    assert hit - {i} + {i} == hit;
    SumInAtMost(s, {i}, 0);
    SumInAtMost(s, hit - {i}, bound);
  }

  lemma Crowded(d: nat, k: nat)
    requires d > 0 && k > 0
    ensures (k - 1) * (d - 1) < d * k
  {
    assert (k - 1) * (d - 1) == d * k - d - k + 1;
  }

  /** Every bucket gets the floor or the ceiling of its exact share. */
  lemma ImputeKeepsQuota(s: Shares, total: int, j: nat)
    requires Proper(s) && j < |s.numerators|
    ensures var t, v, d := Positive(total), Impute(s, total)[j], s.denominator;
      d * v - d < t * s.numerators[j] < d * v + d
  {
    var t, d, f := Positive(total), s.denominator, Floor(s, Positive(total), j);
    FloorRemainder(s, t, j);
    assert d * (f + 1) == d * f + d;
    if Remainder(s, t, j) == 0 {
      WholeShareIsKept(s, t, j);
    }
  }

  // ----- No split of the total deviates less

  function Abs(x: int): nat {
    if x < 0 then -x else x
  }

  /** How far the bucket values are from the exact shares, in units of one denominator-th. */
  function Deviation(s: Shares, total: nat, values: seq<int>): int
    requires |values| == |s.numerators|
  {
    Sum(Deviations(s, total, values))
  }

  function Deviations(s: Shares, total: nat, values: seq<int>): (r: seq<int>)
    requires |values| == |s.numerators|
    ensures |r| == |values|
  {
    seq(|values|, j requires 0 <= j < |values| => Abs(s.denominator * values[j] - total * s.numerators[j]))
  }

  /** The cost of `e` units above the floor when each unit also earns `d - 2 * level`. */
  function Priced(d: int, r: int, level: int, e: int): int {
    Abs(d * e - r) - d * e + 2 * (level * e)
  }

  lemma PricedRange(d: int, r: int, level: int, e: int)
    requires 0 <= r < d && 0 <= level < d
    ensures e >= 1 ==> Priced(d, r, level, e) >= 2 * level - r
    ensures e <= 0 ==> Priced(d, r, level, e) >= r
  {
    if e >= 1 {
      assert d * e >= d * 1 && level * e >= level * 1;
    } else {
      assert d * e <= d * 0;
      assert (level - d) * e >= 0;
      assert (level - d) * e == level * e - d * e;
    }
  }

  /** Rounding up pays exactly for the buckets whose remainder reaches the level. */
  lemma PricedCell(d: int, r: int, level: int, u: int, e: int)
    requires 0 <= r < d && 0 <= level < d
    requires (u == 1 && level <= r) || (u == 0 && r <= level)
    ensures Priced(d, r, level, e) >= Priced(d, r, level, u)
  {
    PricedRange(d, r, level, e);
  }

  lemma MovedCell(d: int, f: int, r: int, level: int, u: int, e: int)
    requires 0 <= r < d && 0 <= level < d
    requires (u == 1 && level <= r) || (u == 0 && r <= level)
    ensures Abs(d * (f + e) - (d * f + r)) >= Abs(d * (f + u) - (d * f + r)) + (d - 2 * level) * (e - u)
  {
    PricedCell(d, r, level, u, e);
    DistributeLeft(d, f, e);
    DistributeLeft(d, f, u);
    PriceOfMove(d, level, e, u);
  }

  lemma PriceOfMove(d: int, level: int, e: int, u: int)
    ensures (d - 2 * level) * (e - u) == (d * e - 2 * (level * e)) - (d * u - 2 * (level * u))
  {
  }

  ghost predicate Separates(s: Shares, total: nat, level: int, j: nat)
    requires Proper(s) && j < |s.numerators|
  {
    if j in Bumped(s, total) then level <= Remainder(s, total, j) else Remainder(s, total, j) <= level
  }

  /** Moving one bucket off its imputed value costs at least the price of the units moved. */
  lemma CellDeviation(s: Shares, total: nat, level: int, j: nat, v: int)
    requires Proper(s) && j < |s.numerators| && 0 <= level < s.denominator
    requires Separates(s, total, level, j)
    ensures var d, c, x := s.denominator, Impute(s, total)[j], total * s.numerators[j];
      Abs(d * v - x) >= Abs(d * c - x) + (d - 2 * level) * (v - c)
  {
    var f, u := Floor(s, total, j), if j in Bumped(s, total) then 1 else 0;
    FloorRemainder(s, total, j);
    MovedCell(s.denominator, f, Remainder(s, total, j), level, u, v - f);
  }

  /** A remainder that separates the buckets rounded up from the others. */
  lemma Level(s: Shares, total: nat) returns (level: int)
    requires Proper(s)
    ensures 0 <= level < s.denominator
    ensures forall j: nat :: j < |s.numerators| ==> Separates(s, total, level, j)
  {
    var i, n := 0, |s.numerators|;
    level := 0;
    while i < n
      invariant 0 <= i <= n && 0 <= level < s.denominator
      invariant forall j: nat :: j < i && j !in Bumped(s, total) ==> Remainder(s, total, j) <= level
      invariant level == 0 || exists k: nat :: k < n && k !in Bumped(s, total) && level == Remainder(s, total, k)
    {
      FloorRemainder(s, total, i);
      if i !in Bumped(s, total) && level < Remainder(s, total, i) {
        level := Remainder(s, total, i);
      }
      i := i + 1;
    }
    forall j: nat | j < n && j in Bumped(s, total)
      ensures level <= Remainder(s, total, j)
    {
      if level != 0 {
        var k: nat :| k < n && k !in Bumped(s, total) && level == Remainder(s, total, k);
        BumpedRemainders(s, total, j, k);
      }
    }
  }

  /** Prices paid for moving from one split of a total to another cancel out. */
  lemma MovesCancel(a: seq<int>, b: seq<int>, price: int) returns (moves: seq<int>)
    requires |a| == |b| && Sum(a) == Sum(b)
    ensures |moves| == |a| && Sum(moves) == 0
    ensures forall j :: 0 <= j < |a| ==> moves[j] == price * (a[j] - b[j])
  {
    var gaps := seq(|a|, j requires 0 <= j < |a| => a[j] - b[j]);
    moves := seq(|a|, j requires 0 <= j < |a| => price * gaps[j]);
    SumLinear(a, b, gaps, 1, -1);
    SumLinear(gaps, gaps, moves, price, 0);
  }

  ghost predicate Pays(s: Shares, total: nat, values: seq<int>, moves: seq<int>, j: nat)
    requires Proper(s) && |values| == |moves| == |s.numerators| && j < |values|
  {
    Deviations(s, total, Impute(s, total))[j] + moves[j] <= Deviations(s, total, values)[j]
  }

  lemma CellPays(s: Shares, total: nat, level: int, values: seq<int>, moves: seq<int>, price: int, j: nat)
    requires Proper(s) && |values| == |moves| == |s.numerators| && j < |values|
    requires 0 <= level < s.denominator && price == s.denominator - 2 * level
    requires Separates(s, total, level, j)
    requires moves[j] == price * (values[j] - Impute(s, total)[j])
    ensures Pays(s, total, values, moves, j)
  {
    CellDeviation(s, total, level, j, values[j]);
  }

  ghost predicate Below(from: seq<int>, moves: seq<int>, to: seq<int>) {
    |from| == |moves| == |to| && forall j :: 0 <= j < |from| ==> from[j] + moves[j] <= to[j]
  }

  lemma Dominates(from: seq<int>, moves: seq<int>, to: seq<int>)
    requires Below(from, moves, to) && Sum(moves) == 0
    ensures Sum(from) <= Sum(to)
  {
    var floor := seq(|from|, j requires 0 <= j < |from| => from[j] + moves[j]);
    SumLinear(from, moves, floor, 1, 1);
    SumMonotone(floor, to);
  }

  /** Moves that cancel out, and each of which costs at least its price. */
  lemma MovesPay(s: Shares, total: nat, values: seq<int>) returns (moves: seq<int>)
    requires Proper(s) && |values| == |s.numerators| && Sum(values) == total
    ensures Below(Deviations(s, total, Impute(s, total)), moves, Deviations(s, total, values)) && Sum(moves) == 0
  {
    var level := Level(s, total);
    var price := s.denominator - 2 * level;
    ImputeIsExact(s, total);
    moves := MovesCancel(values, Impute(s, total), price);
    forall j: nat | j < |values|
      ensures Pays(s, total, values, moves, j)
    {
      CellPays(s, total, level, values, moves, price, j);
    }
    AllPay(s, total, values, moves);
  }

  lemma AllPay(s: Shares, total: nat, values: seq<int>, moves: seq<int>)
    requires Proper(s) && |values| == |moves| == |s.numerators|
    requires forall j: nat :: j < |values| ==> Pays(s, total, values, moves, j)
    ensures Below(Deviations(s, total, Impute(s, total)), moves, Deviations(s, total, values))
  {
    forall j: nat | j < |values|
      ensures Deviations(s, total, Impute(s, total))[j] + moves[j] <= Deviations(s, total, values)[j]
    {
      assert Pays(s, total, values, moves, j);
    }
  }

  /** Among all ways to split the total into integers, none deviates less from the exact shares. */
  lemma ImputeDeviatesLeast(s: Shares, total: nat, values: seq<int>)
    requires Proper(s) && |values| == |s.numerators| && Sum(values) == total
    ensures Deviation(s, total, Impute(s, total)) <= Deviation(s, total, values)
  {
    var moves := MovesPay(s, total, values);
    Dominates(Deviations(s, total, Impute(s, total)), moves, Deviations(s, total, values));
  }

  // ----- The in-place algorithm

  lemma NothingToSplit(s: Shares)
    requires Proper(s)
    ensures Impute(s, 0) == seq(|s.numerators|, _ => 0)
    ensures Need(s, 0) == 0 && Floors(s, 0) == Remainders(s, 0) == seq(|s.numerators|, _ => 0)
  {
    SumZero(Floors(s, 0));
    assert Bumped(s, 0) == {};
  }

  /** Floors and remainders of one positive total, bucket by bucket, and what the floors add up to. */
  method FloorBuckets(s: Shares, total: nat) returns (values: array<nat>, remainders: array<nat>, spent: nat)
    requires Proper(s)
    ensures fresh(values) && fresh(remainders) && values != remainders
    ensures values[..] == Floors(s, total) && remainders[..] == Remainders(s, total)
    ensures spent == Sum(Floors(s, total))
  {
    var n := |s.numerators|;
    values, remainders := new nat[n], new nat[n];
    spent := 0;
    for idx := 0 to n
      invariant values[..idx] == Floors(s, total)[..idx]
      invariant remainders[..idx] == Remainders(s, total)[..idx]
      invariant spent == Sum(Floors(s, total)[..idx])
    {
      var product := total * s.numerators[idx];
      values[idx] := product / s.denominator;
      remainders[idx] := product % s.denominator;
      spent := spent + values[idx];
      assert Floors(s, total)[..idx + 1][..idx] == Floors(s, total)[..idx];
    }
    assert Floors(s, total)[..n] == Floors(s, total);
  }

  /** One more unit for each of the first `k` buckets of the order. */
  method BumpFirst(values: array<nat>, order: seq<nat>, k: nat)
    requires InRange(order, values.Length) && Distinct(order) && k <= |order|
    modifies values
    ensures values[..] == AddUnits(old(values[..]), Elements(order[..k]))
  {
    for p := 0 to k
      invariant values[..] == AddUnits(old(values[..]), Elements(order[..p]))
    {
      assert order[..p + 1] == order[..p] + [order[p]];
      assert order[p] !in order[..p];
      values[order[p]] := values[order[p]] + 1;
    }
  }

  /** The source's algorithm on fixed-size buffers: floors, then one unit per leading remainder. */
  method ImputeTotal(s: Shares, total: i64) returns (result: seq<nat>)
    requires Proper(s)
    ensures result == Impute(s, total)
    ensures Sum(result) == Positive(total)
  {
    ImputeIsExact(s, total);
    if total <= 0 {
      NothingToSplit(s);
      return seq(|s.numerators|, _ => 0);
    }
    var values, remainders, spent := FloorBuckets(s, total);
    var rems := remainders[..];
    var keys := seq(|rems|, j requires 0 <= j < |rems| => Key(rems[j], 0));
    assert keys == RemainderKeys(s, total);
    RankingSorted(keys);
    BumpFirst(values, RankedIndices(keys), total - spent);
    result := values[..];
  }

  // ----- The bundled shares

  const BUCKETS := 5

  /** Input, output, cache read, cache write and reasoning, in 26 981 413 964ths. */
  const BUNDLED := Shares([2_182_896_619, 112_659_190, 24_546_162_069, 104_142_575, 35_553_511], 26_981_413_964)

  lemma BundledIsProper()
    ensures Proper(BUNDLED) && |BUNDLED.numerators| == BUCKETS
  {
    Sum5(BUNDLED.numerators);
  }

  lemma Sum5(s: seq<int>)
    requires |s| == 5
    ensures Sum(s) == s[0] + s[1] + s[2] + s[3] + s[4]
  {
    Sum2(s[..2]);
    assert s[..4][..3] == s[..3] && s[..3][..2] == s[..2];
    assert Sum(s[..3]) == Sum(s[..2]) + s[2];
    assert Sum(s[..4]) == Sum(s[..3]) + s[3];
  }

  lemma Sum2(s: seq<int>)
    requires |s| == 2
    ensures Sum(s) == s[0] + s[1]
  {
    assert s[..1][..0] == [];
    assert Sum(s[..1]) == Sum(s[..0]) + s[0];
  }

  datatype TokenBreakdown = TokenBreakdown(
    input: nat, output: nat, cacheRead: nat, cacheWrite: nat, cacheWrite1h: nat, reasoning: nat)
  {
    /** One-hour cache writes are part of the cache writes and are not counted again. */
    function Total(): nat {
      input + output + cacheRead + cacheWrite + reasoning
    }
  }

  function Breakdown(values: seq<nat>): (b: TokenBreakdown)
    requires |values| == BUCKETS
    ensures b.Total() == Sum(values) && b.cacheWrite1h == 0
  {
    Sum5(values);
    TokenBreakdown(values[0], values[1], values[2], values[3], 0, values[4])
  }

  method ImputeTotalOnlyBreakdown(s: Shares, total: i64) returns (b: TokenBreakdown)
    requires Proper(s) && |s.numerators| == BUCKETS
    ensures b == Breakdown(Impute(s, total)) && b.Total() == Positive(total)
    ensures [b.input, b.output, b.cacheRead, b.cacheWrite, b.reasoning] == Impute(s, total) && b.cacheWrite1h == 0
  {
    var values := ImputeTotal(s, total);
    b := Breakdown(values);
  }

  /** A total that is not positive emits no tokens. */
  lemma NonPositiveIsEmpty(s: Shares, total: int)
    requires Proper(s) && |s.numerators| == BUCKETS && total <= 0
    ensures Breakdown(Impute(s, total)) == TokenBreakdown(0, 0, 0, 0, 0, 0)
  {
    NothingToSplit(s);
  }
}
