/** Which issues a summary lists, told on the inputs and diagnostics of the log, kind by kind. */
module HealthIssues {
  import opened Options
  import opened Words
  import opened Sums
  import opened Ascending
  import opened InputHealth
  import opened HealthMerging
  import opened HealthWire

  // ----- What the log has for one client

  ghost function PartialAt(inputs: seq<Input>, c: Option<ClientId>): set<nat> {
    set i: nat | i < |inputs| && Some(inputs[i].client) == c && inputs[i].status.Partial?
  }

  ghost function UnavailableAt(inputs: seq<Input>, c: Option<ClientId>): set<nat> {
    set i: nat | i < |inputs| && Some(inputs[i].client) == c && inputs[i].status.Unavailable?
  }

  ghost function RejectingAt(inputs: seq<Input>, c: Option<ClientId>, key: string): set<nat> {
    set i: nat | i < |inputs| && Some(inputs[i].client) == c && Rejects(inputs[i], key)
  }

  function Amounts(inputs: seq<Input>, c: Option<ClientId>, key: string): (r: seq<nat>)
    ensures |r| == |inputs|
  {
    seq(|inputs|, i requires 0 <= i < |inputs| =>
      if Some(inputs[i].client) == c && key in inputs[i].rejections then inputs[i].rejections[key] else 0)
  }

  ghost function DiagnosedAt(ds: seq<Diagnostic>, c: Option<ClientId>, kind: DiagnosticKind): set<nat> {
    set i: nat | i < |ds| && ds[i].client == c && ds[i].kind == kind
  }

  /** The issue for so many inputs or diagnostics, if there are any. */
  ghost function Entry(level: Level, c: Option<ClientId>, kind: IssueKind, n: nat, rejected: Option<nat>, h: Handling)
    : Option<Issue>
  {
    if n == 0 then None else Some(Issue(level, c, kind, Sat(n), rejected, h))
  }

  /** The issue that the summary should list for a client and a kind. */
  ghost function Expected(log: Log, c: Option<ClientId>, kind: IssueKind): Option<Issue> {
    match kind
    case RecordRejection(key) =>
      NonNegative(Amounts(log.inputs, c, key));
      Entry(Warning, c, kind, |RejectingAt(log.inputs, c, key)|, Some(Sat(Sum(Amounts(log.inputs, c, key)))),
            RecordSkipped)
    case PartialInput => Entry(Error, c, kind, |PartialAt(log.inputs, c)|, None, ConfirmedDataKept)
    case InputUnavailable => Entry(Error, c, kind, |UnavailableAt(log.inputs, c)|, None, InputSkipped)
    case InputCacheUnavailable =>
      Entry(Warning, c, kind, |DiagnosedAt(log.diagnostics, c, CacheUnavailable)|, None, CacheBypassed)
    case InputCacheReadFailed =>
      Entry(Warning, c, kind, |DiagnosedAt(log.diagnostics, c, CacheReadFailed)|, None, InputReparsed)
    case InputCacheWriteFailed =>
      Entry(Warning, c, kind, |DiagnosedAt(log.diagnostics, c, CacheWriteFailed)|, None, AuthoritativeDataKept)
  }

  lemma {:induction false} NonNegative(s: seq<nat>)
    ensures Sum(s) >= 0
  {
    CheckedSumIsSum(s);
  }

  // ----- What the marks of a key add up to

  predicate IsOf(d: Diagnostic, k: Key) {
    d.client == k.client &&
    match k.kind
    case InputCacheUnavailable => d.kind == CacheUnavailable
    case InputCacheReadFailed => d.kind == CacheReadFailed
    case InputCacheWriteFailed => d.kind == CacheWriteFailed
    case _ => false
  }

  ghost function OfKind(ds: seq<Diagnostic>, k: Key): set<nat> {
    set i: nat | i < |ds| && IsOf(ds[i], k)
  }

  predicate Shows(input: Input, k: Key) {
    Some(input.client) == k.client &&
    match k.kind
    case RecordRejection(key) => Rejects(input, key)
    case PartialInput => input.status.Partial?
    case InputUnavailable => input.status.Unavailable?
    case _ => false
  }

  ghost function Showing(inputs: seq<Input>, k: Key): set<nat> {
    set i: nat | i < |inputs| && Shows(inputs[i], k)
  }

  function AmountIn(input: Input, k: Key): nat {
    if k.kind.RecordRejection? && Some(input.client) == k.client && k.kind.key in input.rejections
    then input.rejections[k.kind.key] else 0
  }

  lemma DiagnosticAt(d: Diagnostic, k: Key)
    ensures At(DiagnosticMarks([d]), k, One) == if IsOf(d, k) then 1 else 0
    ensures At(DiagnosticMarks([d]), k, Amount) == 0
  {
    var marks := DiagnosticMarks([d]);
    assert At(marks[..0], k, One) == 0 && At(marks[..0], k, Amount) == 0;
  }

  lemma {:induction false} DiagnosticsAt(ds: seq<Diagnostic>, k: Key)
    ensures At(DiagnosticMarks(ds), k, One) == |OfKind(ds, k)| && At(DiagnosticMarks(ds), k, Amount) == 0
  {
    if |ds| == 0 {
      assert OfKind(ds, k) == {};
    } else {
      var front, last := ds[..|ds| - 1], ds[|ds| - 1];
      DiagnosticsAt(front, k);
      DiagnosticAt(last, k);
      assert DiagnosticMarks(ds) == DiagnosticMarks(front) + DiagnosticMarks([last]);
      AtConcat(DiagnosticMarks(front), DiagnosticMarks([last]), k, One);
      AtConcat(DiagnosticMarks(front), DiagnosticMarks([last]), k, Amount);
      OneMoreIndex(OfKind(front, k), OfKind(ds, k), |front|, IsOf(last, k));
    }
  }

  lemma {:induction false} RejectionsAt(client: ClientId, r: Rejections, keys: seq<string>, k: Key)
    requires forall key :: key in keys ==> key in r
    requires forall i, j :: 0 <= i < j < |keys| ==> keys[i] != keys[j]
    ensures var mine := k.kind.RecordRejection? && k.client == Some(client) && k.kind.key in keys;
      && At(RejectionMarks(client, r, keys), k, One) == (if mine && r[k.kind.key] > 0 then 1 else 0)
      && At(RejectionMarks(client, r, keys), k, Amount) == (if mine then r[k.kind.key] else 0)
  {
    if |keys| > 0 {
      var front, last := keys[..|keys| - 1], keys[|keys| - 1];
      RejectionsAt(client, r, front, k);
      assert keys == front + [last] && last !in front;
      LastRejectionAt(client, r, front, last, k);
    }
  }

  lemma LastRejectionAt(client: ClientId, r: Rejections, front: seq<string>, last: string, k: Key)
    requires last in r && forall key :: key in front ==> key in r
    ensures var mine := k == Key(Some(client), RecordRejection(last));
      && At(RejectionMarks(client, r, front + [last]), k, One)
         == At(RejectionMarks(client, r, front), k, One) + (if mine && r[last] > 0 then 1 else 0)
      && At(RejectionMarks(client, r, front + [last]), k, Amount)
         == At(RejectionMarks(client, r, front), k, Amount) + (if mine then r[last] else 0)
  {
    var marks := RejectionMarks(client, r, front);
    assert (front + [last])[..|front|] == front;
    if r[last] > 0 {
      var m := Mark(Key(Some(client), RecordRejection(last)), r[last]);
      assert (marks + [m])[..|marks|] == marks;
    } else {
      assert marks + [] == marks;
    }
  }

  lemma StatusAt(input: Input, k: Key)
    ensures At(StatusMarks(input), k, One)
         == if !k.kind.RecordRejection? && Shows(input, k) then 1 else 0
    ensures At(StatusMarks(input), k, Amount) == 0
  {
    var marks := StatusMarks(input);
    if |marks| == 1 {
      assert At(marks[..0], k, One) == 0 && At(marks[..0], k, Amount) == 0;
    }
  }

  lemma InputAt(input: Input, k: Key)
    ensures At(MarksOf(input), k, One) == if Shows(input, k) then 1 else 0
    ensures At(MarksOf(input), k, Amount) == AmountIn(input, k)
  {
    var r, keys := input.rejections, Reasons(input.rejections);
    StringCodeInjective();
    InOrderIsDistinct(r.Keys, StringCode);
    RejectionsAt(input.client, r, keys, k);
    StatusAt(input, k);
    AtConcat(RejectionMarks(input.client, r, keys), StatusMarks(input), k, One);
    AtConcat(RejectionMarks(input.client, r, keys), StatusMarks(input), k, Amount);
  }

  function AmountsIn(inputs: seq<Input>, k: Key): nat {
    if |inputs| == 0 then 0 else AmountsIn(inputs[..|inputs| - 1], k) + AmountIn(inputs[|inputs| - 1], k)
  }

  lemma OneInputMore(marks: seq<Mark>, input: Input, k: Key)
    ensures At(marks + MarksOf(input), k, One) == At(marks, k, One) + if Shows(input, k) then 1 else 0
    ensures At(marks + MarksOf(input), k, Amount) == At(marks, k, Amount) + AmountIn(input, k)
  {
    InputAt(input, k);
    AtConcat(marks, MarksOf(input), k, One);
    AtConcat(marks, MarksOf(input), k, Amount);
  }

  lemma {:induction false} InputsAt(inputs: seq<Input>, k: Key)
    ensures At(InputMarks(inputs), k, One) == |Showing(inputs, k)|
    ensures At(InputMarks(inputs), k, Amount) == AmountsIn(inputs, k)
  {
    if |inputs| == 0 {
      assert Showing(inputs, k) == {};
    } else {
      var front, last := inputs[..|inputs| - 1], inputs[|inputs| - 1];
      InputsAt(front, k);
      OneInputMore(InputMarks(front), last, k);
      OneShownMore(inputs, k);
    }
  }

  lemma OneShownMore(inputs: seq<Input>, k: Key)
    requires |inputs| > 0
    ensures |Showing(inputs, k)|
         == |Showing(inputs[..|inputs| - 1], k)| + if Shows(inputs[|inputs| - 1], k) then 1 else 0
  {
    var front, last := inputs[..|inputs| - 1], inputs[|inputs| - 1];
    OneMoreIndex(Showing(front, k), Showing(inputs, k), |front|, Shows(last, k));
  }

  lemma LogAt(log: Log, k: Key)
    ensures At(Marks(log), k, One) == |Showing(log.inputs, k)| + |OfKind(log.diagnostics, k)|
    ensures At(Marks(log), k, Amount) == AmountsIn(log.inputs, k)
  {
    InputsAt(log.inputs, k);
    DiagnosticsAt(log.diagnostics, k);
    AtConcat(InputMarks(log.inputs), DiagnosticMarks(log.diagnostics), k, One);
    AtConcat(InputMarks(log.inputs), DiagnosticMarks(log.diagnostics), k, Amount);
  }

  lemma {:induction false} AmountsAdd(inputs: seq<Input>, c: Option<ClientId>, key: string)
    ensures AmountsIn(inputs, Key(c, RecordRejection(key))) == Sum(Amounts(inputs, c, key))
  {
    var n := |inputs|;
    if n > 0 {
      AmountsAdd(inputs[..n - 1], c, key);
      assert Amounts(inputs, c, key)[..n - 1] == Amounts(inputs[..n - 1], c, key);
    }
  }

  // ----- The summary lists exactly these

  ghost predicate HasKind(i: Issue, c: Option<ClientId>, kind: IssueKind) {
    i.client == c && i.kind == kind
  }

  /** What the marks of a key make of it is what is expected. */
  lemma ExpectedAt(log: Log, c: Option<ClientId>, kind: IssueKind)
    ensures var k := Key(c, kind);
      Expected(log, c, kind) == if At(Marks(log), k, One) == 0 then None else Some(IssueAt(Marks(log), k))
  {
    var k := Key(c, kind);
    LogAt(log, k);
    match kind
    case RecordRejection(key) =>
      AmountsAdd(log.inputs, c, key);
      NonNegative(Amounts(log.inputs, c, key));
      assert Showing(log.inputs, k) == RejectingAt(log.inputs, c, key) && OfKind(log.diagnostics, k) == {};
    case PartialInput =>
      assert Showing(log.inputs, k) == PartialAt(log.inputs, c) && OfKind(log.diagnostics, k) == {};
    case InputUnavailable =>
      assert Showing(log.inputs, k) == UnavailableAt(log.inputs, c) && OfKind(log.diagnostics, k) == {};
    case InputCacheUnavailable =>
      assert Showing(log.inputs, k) == {};
      assert OfKind(log.diagnostics, k) == DiagnosedAt(log.diagnostics, c, CacheUnavailable);
    case InputCacheReadFailed =>
      assert Showing(log.inputs, k) == {};
      assert OfKind(log.diagnostics, k) == DiagnosedAt(log.diagnostics, c, CacheReadFailed);
    case InputCacheWriteFailed =>
      assert Showing(log.inputs, k) == {};
      assert OfKind(log.diagnostics, k) == DiagnosedAt(log.diagnostics, c, CacheWriteFailed);
  }

  /**
   * For every client, or none, and every kind: the summary lists an issue exactly if the log has such inputs
   * or diagnostics, and then the one with their saturated number and amount under the level and handling of
   * the kind.
   */
  lemma SummaryListsTheLog(log: Log, c: Option<ClientId>, kind: IssueKind, issue: Issue)
    ensures issue in Summarize(log).issues && HasKind(issue, c, kind) <==> Expected(log, c, kind) == Some(issue)
  {
    var issues, marks, k := Summarize(log).issues, Marks(log), Key(c, kind);
    var keys := ListingCovers(marks);
    ExpectedAt(log, c, kind);
    if issue in issues && HasKind(issue, c, kind) {
      var i :| 0 <= i < |issues| && issues[i] == issue;
      assert keys[i] == k;
    }
    if Expected(log, c, kind) == Some(issue) {
      var m := MarkOf(marks, k);
      var i :| 0 <= i < |keys| && keys[i] == k;
      assert issues[i] == issue;
    }
  }

  // ----- The order of the issues

  /** One text is a proper prefix of the other, or has the smaller character at the first difference. */
  ghost predicate TextBefore(a: string, b: string) {
    exists n: nat ::
      && n <= |a| && n < |b| && a[..n] == b[..n]
      && (n == |a| || a[n] < b[n])
  }

  ghost predicate ClientBefore(a: Option<ClientId>, b: Option<ClientId>) {
    b.Some? && (a.None? || a.value < b.value)
  }

  /** Rejections by reason, then the other kinds in this order. */
  ghost predicate KindBefore(a: IssueKind, b: IssueKind) {
    match a
    case RecordRejection(key) => b.RecordRejection? ==> TextBefore(key, b.key)
    case PartialInput => b in {InputUnavailable, InputCacheUnavailable, InputCacheReadFailed, InputCacheWriteFailed}
    case InputUnavailable => b in {InputCacheUnavailable, InputCacheReadFailed, InputCacheWriteFailed}
    case InputCacheUnavailable => b in {InputCacheReadFailed, InputCacheWriteFailed}
    case InputCacheReadFailed => b == InputCacheWriteFailed
    case InputCacheWriteFailed => false
  }

  /** Warnings before errors, issues of no client first, then by client, then by kind. */
  ghost predicate StandsBefore(a: Issue, b: Issue) {
    || (a.level == Warning && b.level == Error)
    || (a.level == b.level && ClientBefore(a.client, b.client))
    || (a.level == b.level && a.client == b.client && KindBefore(a.kind, b.kind))
  }

  lemma {:induction false} LessCode(a: string, b: string)
    requires Less(StringCode(a), StringCode(b))
    ensures TextBefore(a, b)
  {
    if |a| == 0 || a[0] < b[0] {
      assert a[..0] == b[..0];
    } else {
      assert StringCode(a)[1..] == StringCode(a[1..]) && StringCode(b)[1..] == StringCode(b[1..]);
      LessCode(a[1..], b[1..]);
      var n: nat :| n <= |a[1..]| && n < |b[1..]| && a[1..][..n] == b[1..][..n]
        && (n == |a[1..]| || a[1..][n] < b[1..][n]);
      assert a[..n + 1] == [a[0]] + a[1..][..n] && b[..n + 1] == [b[0]] + b[1..][..n];
    }
  }

  lemma LessKind(a: IssueKind, b: IssueKind)
    requires Less(KindCode(a), KindCode(b))
    ensures KindBefore(a, b)
  {
    if a.RecordRejection? && b.RecordRejection? {
      assert KindCode(a)[1..] == StringCode(a.key) && KindCode(b)[1..] == StringCode(b.key);
      LessCode(a.key, b.key);
    } else if !a.RecordRejection? && !b.RecordRejection? {
      assert KindCode(a)[1..] == [] && KindCode(b)[1..] == [];
    }
  }

  lemma LessKey(a: Key, b: Key)
    requires Less(KeyCode(a), KeyCode(b))
    ensures StandsBefore(Fresh(a), Fresh(b))
  {
    var x, y := KeyCode(a), KeyCode(b);
    assert x[1..][0] == x[1] && y[1..][0] == y[1];
    assert x[1..][1..] == KindCode(a.kind) && y[1..][1..] == KindCode(b.kind);
    if x[0] == y[0] && x[1] == y[1] {
      LessKind(a.kind, b.kind);
    }
  }

  /** Of any two issues of a summary the earlier one stands before the later one in this order. */
  lemma SummaryIsOrdered(log: Log, i: nat, j: nat)
    requires i < j < |Summarize(log).issues|
    ensures StandsBefore(Summarize(log).issues[i], Summarize(log).issues[j])
  {
    var g := AddMarks(map[], Marks(log));
    var keys := Order(g);
    GroupedByKey(Marks(log));
    KeyCodeInjective();
    InOrderAscends(g.Keys, KeyCode, i, j);
    LessKey(keys[i], keys[j]);
    assert keys[i] in g && keys[j] in g;
  }

  // ----- The counters of the log

  ghost function AllPartial(inputs: seq<Input>): set<nat> {
    set i: nat | i < |inputs| && inputs[i].status.Partial?
  }

  ghost function AllUnavailable(inputs: seq<Input>): set<nat> {
    set i: nat | i < |inputs| && inputs[i].status.Unavailable?
  }

  lemma {:induction false} StatusesAreCounted(inputs: seq<Input>)
    ensures CountPartial(inputs) == |AllPartial(inputs)| && CountUnavailable(inputs) == |AllUnavailable(inputs)|
  {
    if |inputs| == 0 {
      assert AllPartial(inputs) == {} && AllUnavailable(inputs) == {};
    } else {
      var front, last := inputs[..|inputs| - 1], inputs[|inputs| - 1];
      StatusesAreCounted(front);
      OneMoreIndex(AllPartial(front), AllPartial(inputs), |front|, last.status.Partial?);
      OneMoreIndex(AllUnavailable(front), AllUnavailable(inputs), |front|, last.status.Unavailable?);
    }
  }

  /** Each counter of the log is the exact number, capped to a word. */
  lemma CountersAreExact(log: Log)
    ensures RejectedRecords(log) == Sat(NatSum(ExactTotals(log.inputs)))
    ensures PartialInputs(log) == Sat(|AllPartial(log.inputs)|)
    ensures FailedInputs(log) == Sat(|AllUnavailable(log.inputs)|)
  {
    RejectedIsExact(log);
    StatusesAreCounted(log.inputs);
  }

  lemma CountersFit(log: Log, rejected: nat, partial: nat, failed: nat, diagnosed: nat)
    requires RejectedRecords(log) == rejected && CountPartial(log.inputs) == partial
    requires CountUnavailable(log.inputs) == failed && |log.diagnostics| == diagnosed
    requires rejected + partial + failed + diagnosed <= U64_MAX
    ensures IssueCount(log) == rejected + partial + failed + diagnosed
  {
  }

  /** The issues of a log are its rejected records, its partial and unavailable inputs and its diagnostics. */
  lemma IssuesAreCounted(log: Log)
    requires NatSum(ExactTotals(log.inputs)) + |AllPartial(log.inputs)| + |AllUnavailable(log.inputs)|
             + |log.diagnostics| <= U64_MAX
    ensures IssueCount(log) == NatSum(ExactTotals(log.inputs)) + |AllPartial(log.inputs)|
                               + |AllUnavailable(log.inputs)| + |log.diagnostics|
  {
    CountersAreExact(log);
    StatusesAreCounted(log.inputs);
    CountersFit(log, NatSum(ExactTotals(log.inputs)), CountPartial(log.inputs), CountUnavailable(log.inputs),
                |log.diagnostics|);
  }

  lemma IssuesFitAWord(log: Log)
    ensures IssueCount(log) <= U64_MAX
  {
  }
}
