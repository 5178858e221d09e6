/**
 * What the table of a batch is: the rows are walked in the order of their needs, and every unit goes to
 * an open bucket that leads by what it still lacks, then by the row's remainder, then by its index.
 */
module BatchTable {
  import opened Sums
  import opened Ranking
  import opened GaleRyser
  import opened TokenImputation
  import opened BatchImputation
  import opened TieBreaking

  /** The rows in their order, what the buckets lack before each of them and at the end, and each row's units. */
  datatype Walk = Walk(order: seq<nat>, lacks: seq<seq<nat>>, units: seq<set<nat>>)

  /** What each row lacks once its quotients are given out. */
  ghost predicate AreNeeds(s: Shares, totals: seq<int>, needs: seq<nat>)
    requires Proper(s)
  {
    |needs| == |totals|
    && forall r :: 0 <= r < |totals| ==> needs[r] + Sum(Floors(s, Positive(totals[r]))) == Positive(totals[r])
  }

  /** What each bucket lacks of the split of the batch total once all quotients are given out. */
  ghost predicate AreGaps(s: Shares, totals: seq<int>, gaps: seq<nat>)
    requires Proper(s)
  {
    |gaps| == |s.numerators|
    && forall j: nat :: j < |gaps| ==> gaps[j] + ColumnFloor(s, totals, j) == Impute(s, BatchTotal(totals))[j]
  }

  /** One row's turn: it takes its units, and the buckets lack so much less. */
  ghost predicate Turn(before: seq<nat>, after: seq<nat>, remainders: seq<nat>, need: nat, units: set<nat>)
    requires |before| == |remainders|
  {
    && |after| == |before| && units <= Indices(|before|)
    && (forall j: nat :: j < |before| ==> (j in units <==> TakesUnit(before, remainders, need, j)))
    && (forall j: nat :: j < |before| ==> after[j] == before[j] - if j in units then 1 else 0)
  }

  ghost predicate IsWalk(s: Shares, totals: seq<int>, needs: seq<nat>, w: Walk)
    requires Proper(s)
  {
    && AreNeeds(s, totals, needs) && IsRowOrder(w.order, needs) && |w.units| == |totals|
    && |w.lacks| == |w.order| + 1 && AreGaps(s, totals, w.lacks[0])
    && (forall i :: 0 <= i < |w.lacks| ==> |w.lacks[i]| == |s.numerators|)
    && (forall i :: 0 <= i < |w.order| ==> TurnAt(s, totals, needs, w, i))
  }

  ghost predicate TurnAt(s: Shares, totals: seq<int>, needs: seq<nat>, w: Walk, i: nat)
    requires Proper(s) && i < |w.order| && i + 1 < |w.lacks| && |needs| == |totals| == |w.units|
    requires InRange(w.order, |needs|) && |w.lacks[i]| == |s.numerators|
  {
    var r := w.order[i];
    Turn(w.lacks[i], w.lacks[i + 1], Remainders(s, Positive(totals[r])), needs[r], w.units[r])
  }

  /** The quotients, and one more where the row has taken a unit. */
  ghost predicate IsTable(s: Shares, totals: seq<int>, w: Walk, rows: seq<seq<nat>>)
    requires Proper(s) && |w.units| == |totals|
  {
    && |rows| == |totals| && (forall r :: 0 <= r < |rows| ==> |rows[r]| == |s.numerators|)
    && forall r, j: nat :: 0 <= r < |rows| && j < |s.numerators| ==>
         rows[r][j] == Floor(s, Positive(totals[r]), j) + if j in w.units[r] then 1 else 0
  }

  ghost predicate Ends(w: Walk) {
    |w.lacks| > 0 && AllZero(w.lacks[|w.lacks| - 1])
  }

  // ----- The walk is determined

  lemma TurnIsDetermined(
      before: seq<nat>, a: seq<nat>, b: seq<nat>, rems: seq<nat>, need: nat, u: set<nat>, v: set<nat>)
    requires |before| == |rems| && Turn(before, a, rems, need, u) && Turn(before, b, rems, need, v)
    ensures a == b && u == v
  {
    forall j ensures j in u <==> j in v {}
  }

  lemma NeedsAreDetermined(s: Shares, totals: seq<int>, a: seq<nat>, b: seq<nat>)
    requires Proper(s) && AreNeeds(s, totals, a) && AreNeeds(s, totals, b)
    ensures a == b
  {
  }

  lemma TurnAtIsDetermined(s: Shares, totals: seq<int>, needs: seq<nat>, v: Walk, w: Walk, i: nat)
    requires Proper(s) && IsWalk(s, totals, needs, v) && IsWalk(s, totals, needs, w) && v.order == w.order
    requires i < |v.order| && v.lacks[i] == w.lacks[i]
    ensures v.lacks[i + 1] == w.lacks[i + 1] && v.units[v.order[i]] == w.units[v.order[i]]
  {
    var r := v.order[i];
    assert TurnAt(s, totals, needs, v, i) && TurnAt(s, totals, needs, w, i);
    TurnIsDetermined(v.lacks[i], v.lacks[i + 1], w.lacks[i + 1], Remainders(s, Positive(totals[r])), needs[r],
                     v.units[r], w.units[r]);
  }

  lemma FirstLacksAreDetermined(s: Shares, totals: seq<int>, a: seq<nat>, b: seq<nat>)
    requires Proper(s) && AreGaps(s, totals, a) && AreGaps(s, totals, b)
    ensures a == b
  {
  }

  lemma {:induction false} TurnsAreDetermined(s: Shares, totals: seq<int>, needs: seq<nat>, v: Walk, w: Walk, n: nat)
    requires Proper(s) && IsWalk(s, totals, needs, v) && IsWalk(s, totals, needs, w) && v.order == w.order
    requires n <= |v.order|
    ensures v.lacks[n] == w.lacks[n]
    ensures forall i :: 0 <= i < n ==> v.units[v.order[i]] == w.units[v.order[i]]
    decreases n
  {
    if n == 0 {
      FirstLacksAreDetermined(s, totals, v.lacks[0], w.lacks[0]);
    } else {
      TurnsAreDetermined(s, totals, needs, v, w, n - 1);
      TurnAtIsDetermined(s, totals, needs, v, w, n - 1);
    }
  }

  lemma WalkIsDetermined(s: Shares, totals: seq<int>, a: seq<nat>, v: Walk, b: seq<nat>, w: Walk)
    requires Proper(s) && IsWalk(s, totals, a, v) && IsWalk(s, totals, b, w)
    ensures a == b && v.lacks[|v.lacks| - 1] == w.lacks[|w.lacks| - 1] && v.units == w.units
  {
    NeedsAreDetermined(s, totals, a, b);
    RowOrderIsUnique(v.order, w.order, a);
    RowOrderSize(v.order, a);
    TurnsAreDetermined(s, totals, a, v, w, |v.order|);
    forall r: nat | r < |totals| ensures v.units[r] == w.units[r] {
      assert r in v.order;
    }
  }

  // ----- The fill walks so

  lemma ServeIsTurn(f: Fill, remainders: seq<seq<nat>>, row: nat)
    requires WellFormed(f, remainders) && row < |f.needs| && f.placed[row] == {}
    ensures var g := Serve(f, remainders, row);
      && Turn(f.caps, g.caps, remainders[row], f.needs[row], g.placed[row])
      && (forall r: nat :: r < |f.needs| && r != row ==> g.needs[r] == f.needs[r] && g.placed[r] == f.placed[r])
  {
    var hit := Draw(f.caps, remainders[row], f.needs[row]);
    forall j: nat | j < |f.caps| ensures j in hit <==> TakesUnit(f.caps, remainders[row], f.needs[row], j) {
      DrawnExactly(f.caps, remainders[row], f.needs[row], j);
    }
  }

  ghost predicate Untouched(f: Fill, order: seq<nat>)
    requires InRange(order, |f.placed|)
  {
    Distinct(order) && forall p :: 0 <= p < |order| ==> f.placed[order[p]] == {}
  }

  lemma {:induction false} FillWalks(f: Fill, remainders: seq<seq<nat>>, order: seq<nat>) returns (lacks: seq<seq<nat>>)
    requires WellFormed(f, remainders) && InRange(order, |f.needs|) && Untouched(f, order)
    ensures var g := ServeAll(f, remainders, order);
      && |lacks| == |order| + 1 && lacks[0] == f.caps && lacks[|order|] == g.caps
      && (forall i :: 0 <= i < |lacks| ==> |lacks[i]| == |f.caps|)
      && (forall i :: 0 <= i < |order| ==>
            Turn(lacks[i], lacks[i + 1], remainders[order[i]], f.needs[order[i]], g.placed[order[i]]))
      && (forall r: nat :: r < |f.needs| && r !in order ==> g.placed[r] == f.placed[r])
    decreases |order|
  {
    if |order| == 0 {
      lacks := [f.caps];
    } else {
      var g, rest := Serve(f, remainders, order[0]), order[1..];
      ServeIsTurn(f, remainders, order[0]);
      StillUntouched(f, g, order);
      var tail := FillWalks(g, remainders, rest);
      lacks := [f.caps] + tail;
      assert order == [order[0]] + rest;
      forall i | 0 <= i < |order|
        ensures Turn(lacks[i], lacks[i + 1], remainders[order[i]], f.needs[order[i]],
                     ServeAll(f, remainders, order).placed[order[i]])
      {
        if i > 0 {
          assert order[i] == rest[i - 1] && order[i] != order[0];
        }
      }
    }
  }

  lemma StillUntouched(f: Fill, g: Fill, order: seq<nat>)
    requires |order| > 0 && InRange(order, |f.placed|) && |g.placed| == |f.placed| && Untouched(f, order)
    requires forall r: nat :: r < |f.placed| && r != order[0] ==> g.placed[r] == f.placed[r]
    ensures Untouched(g, order[1..]) && order[0] !in order[1..]
  {
    forall p | 0 <= p < |order[1..]| ensures order[1..][p] != order[0] && g.placed[order[1..][p]] == {} {
      assert order[1..][p] == order[p + 1];
    }
  }

  lemma GreedyWalks(s: Shares, totals: seq<int>) returns (w: Walk)
    requires Proper(s)
    ensures IsWalk(s, totals, Needs(s, totals), w)
    ensures var f := Greedy(s, totals, Caps(s, totals));
      w.units == f.placed && w.lacks[|w.lacks| - 1] == f.caps
  {
    var needs, caps, remainders := Needs(s, totals), Caps(s, totals), AllRemainders(s, totals);
    var order := RowOrder(needs);
    RankingSorted(RowKeys(needs));
    var lacks := FillWalks(Start(needs, caps), remainders, order);
    w := Walk(order, lacks, Greedy(s, totals, caps).placed);
    RowOrderIsSorted(needs);
    NeedsAndGaps(s, totals);
    TurnsAreTurns(s, totals, needs, w);
  }

  lemma NeedsAndGaps(s: Shares, totals: seq<int>)
    requires Proper(s)
    ensures AreNeeds(s, totals, Needs(s, totals)) && AreGaps(s, totals, Caps(s, totals))
  {
  }

  lemma TurnsAreTurns(s: Shares, totals: seq<int>, needs: seq<nat>, w: Walk)
    requires Proper(s) && |needs| == |totals| == |w.units| && InRange(w.order, |needs|)
    requires |w.lacks| == |w.order| + 1 && forall i :: 0 <= i < |w.lacks| ==> |w.lacks[i]| == |s.numerators|
    requires forall i :: 0 <= i < |w.order| ==>
               Turn(w.lacks[i], w.lacks[i + 1], AllRemainders(s, totals)[w.order[i]], needs[w.order[i]],
                    w.units[w.order[i]])
    ensures forall i :: 0 <= i < |w.order| ==> TurnAt(s, totals, needs, w, i)
  {
  }

  lemma RowOrderIsSorted(needs: seq<nat>)
    ensures IsRowOrder(RowOrder(needs), needs)
  {
    var keys, order := RowKeys(needs), RowOrder(needs);
    RankingSorted(keys);
    forall r: nat | r < |needs| ensures r in order {
      assert r in Elements(order);
    }
    forall p, q | 0 <= p < q < |order| ensures RowLeads(needs, order[p], order[q]) {
      assert Before(keys, order[p], order[q]);
    }
  }

  // ----- What a batch returns

  ghost predicate Describes(s: Shares, totals: seq<int>, needs: seq<nat>, w: Walk, rows: seq<seq<nat>>)
    requires Proper(s)
  {
    IsWalk(s, totals, needs, w) && Ends(w) && IsTable(s, totals, w, rows)
  }

  /**
   * A batch returns exactly the table of the walk, if the walk ends with every bucket served, and no table
   * otherwise. The walk is stated on totals, shares, quotients and remainders alone and is unique.
   */
  lemma BatchIsWalked(s: Shares, totals: seq<int>, rows: seq<seq<nat>>)
    requires Proper(s) && InScope(totals)
    ensures Batch(s, totals) == Rows(rows) <==> exists needs, w :: Describes(s, totals, needs, w, rows)
  {
    var f, needs := Greedy(s, totals, Caps(s, totals)), Needs(s, totals);
    var w := GreedyWalks(s, totals);
    GreedyOutcome(s, totals);
    BatchOutcome(s, totals);
    assert Caps(s, totals) == Gaps(s, totals);
    FilledIsTable(s, totals, w, f);
    if Batch(s, totals) == Rows(rows) {
      assert Describes(s, totals, needs, w, rows);
    }
    if a, v :| Describes(s, totals, a, v, rows) {
      WalkIsDetermined(s, totals, a, v, needs, w);
      TableIsDetermined(s, totals, v, w, rows, Filled(AllFloors(s, totals), f.placed));
    }
  }

  lemma FilledIsTable(s: Shares, totals: seq<int>, w: Walk, f: Fill)
    requires Proper(s) && |f.placed| == |totals| && w.units == f.placed
    ensures IsTable(s, totals, w, Filled(AllFloors(s, totals), f.placed))
  {
  }

  lemma TableIsDetermined(
      s: Shares, totals: seq<int>, v: Walk, w: Walk, a: seq<seq<nat>>, b: seq<seq<nat>>)
    requires Proper(s) && |v.units| == |totals| && v.units == w.units
    requires IsTable(s, totals, v, a) && IsTable(s, totals, w, b)
    ensures a == b
  {
    forall r: nat | r < |a| ensures a[r] == b[r] {
      forall j: nat | j < |s.numerators| ensures a[r][j] == b[r][j] {}
    }
  }
}
