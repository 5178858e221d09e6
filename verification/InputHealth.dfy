/** Health of scanned inputs: a log that is grouped into a summary with saturating counters. */
module InputHealth {
  import opened Options
  import opened Sums
  import opened Words
  import opened Ascending

  function Sat(x: nat): nat {
    if x > U64_MAX then U64_MAX else x
  }

  function SatAdd(a: nat, b: nat): nat {
    Sat(a + b)
  }

  /** Repeated saturating addition. */
  function SatSum(s: seq<nat>): nat {
    if |s| == 0 then 0 else SatAdd(SatSum(s[..|s| - 1]), s[|s| - 1])
  }

  /** Saturating along the way, and in the summands, is saturating once at the end. */
  lemma {:induction false} SatSumIsSat(s: seq<nat>, exact: seq<nat>)
    requires |s| == |exact| && forall i :: 0 <= i < |s| ==> s[i] == exact[i] || s[i] == Sat(exact[i])
    ensures Sum(exact) >= 0 && SatSum(s) == Sat(Sum(exact))
  {
    var n := |s|;
    if n > 0 {
      SatSumIsSat(s[..n - 1], exact[..n - 1]);
    }
  }

  /** Addition that gives up on overflow. */
  function CheckedSum(s: seq<nat>): Option<nat> {
    if |s| == 0 then Some(0)
    else
      match CheckedSum(s[..|s| - 1])
      case None => None
      case Some(total) => if total + s[|s| - 1] > U64_MAX then None else Some(total + s[|s| - 1])
  }

  lemma {:induction false} CheckedSumIsSum(s: seq<nat>)
    ensures Sum(s) >= 0
    ensures CheckedSum(s) == if Sum(s) <= U64_MAX then Some(Sum(s)) else None
  {
    if |s| > 0 {
      CheckedSumIsSum(s[..|s| - 1]);
    }
  }

  // ----- Issue kinds

  type ClientId = nat

  datatype Level = Warning | Error

  datatype IssueKind =
    | RecordRejection(key: string)
    | PartialInput
    | InputUnavailable
    | InputCacheUnavailable
    | InputCacheReadFailed
    | InputCacheWriteFailed
  {
    function AsStr(): string {
      match this
      case RecordRejection(key) => key
      case PartialInput => "partial-input"
      case InputUnavailable => "input-unavailable"
      case InputCacheUnavailable => "input-cache-unavailable"
      case InputCacheReadFailed => "input-cache-read-failed"
      case InputCacheWriteFailed => "input-cache-write-failed"
    }

    predicate IsInputRetry() {
      PartialInput? || InputUnavailable?
    }

    predicate IsCacheDiagnostic() {
      InputCacheUnavailable? || InputCacheReadFailed? || InputCacheWriteFailed?
    }

    function Level(): Level {
      if IsInputRetry() then Error else Warning
    }

    function Handling(): Handling {
      match this
      case RecordRejection(_) => RecordSkipped
      case PartialInput => ConfirmedDataKept
      case InputUnavailable => InputSkipped
      case InputCacheUnavailable => CacheBypassed
      case InputCacheReadFailed => InputReparsed
      case InputCacheWriteFailed => AuthoritativeDataKept
    }
  }

  const RESERVED: set<string> :=
    {"partial-input", "input-unavailable", "input-cache-unavailable", "input-cache-read-failed",
     "input-cache-write-failed"}

  function KindFromKey(key: string): IssueKind {
    if key == "partial-input" then PartialInput
    else if key == "input-unavailable" then InputUnavailable
    else if key == "input-cache-unavailable" then InputCacheUnavailable
    else if key == "input-cache-read-failed" then InputCacheReadFailed
    else if key == "input-cache-write-failed" then InputCacheWriteFailed
    else RecordRejection(key)
  }

  datatype Handling =
    | RecordSkipped
    | ConfirmedDataKept
    | InputSkipped
    | CacheBypassed
    | InputReparsed
    | AuthoritativeDataKept
    | Other(value: string)
  {
    function AsStr(): string {
      match this
      case RecordSkipped => "record-skipped"
      case ConfirmedDataKept => "confirmed-data-kept"
      case InputSkipped => "input-skipped"
      case CacheBypassed => "cache-bypassed"
      case InputReparsed => "input-reparsed"
      case AuthoritativeDataKept => "authoritative-data-kept"
      case Other(value) => value
    }
  }

  function HandlingFromKey(key: string): Handling {
    if key == "record-skipped" then RecordSkipped
    else if key == "confirmed-data-kept" then ConfirmedDataKept
    else if key == "input-skipped" then InputSkipped
    else if key == "cache-bypassed" then CacheBypassed
    else if key == "input-reparsed" then InputReparsed
    else if key == "authoritative-data-kept" then AuthoritativeDataKept
    else Other(key)
  }

  // ----- The log

  /** Per-reason counts; reasons are open-ended keys. */
  type Rejections = map<string, nat>

  datatype Status = Complete | Partial(failure: string) | Unavailable(failure: string)

  datatype Input = Input(client: ClientId, path: string, status: Status, rejections: Rejections) {
    predicate IsClean() {
      status.Complete? && Total(rejections) == 0
    }
  }

  datatype DiagnosticKind = CacheUnavailable | CacheReadFailed | CacheWriteFailed {
    function Issue(): IssueKind {
      match this
      case CacheUnavailable => InputCacheUnavailable
      case CacheReadFailed => InputCacheReadFailed
      case CacheWriteFailed => InputCacheWriteFailed
    }
  }

  datatype Diagnostic = Diagnostic(client: Option<ClientId>, path: string, kind: DiagnosticKind)

  datatype Log = Log(inputs: seq<Input>, diagnostics: seq<Diagnostic>, examined: nat)

  function StringCode(s: string): seq<nat> {
    seq(|s|, i requires 0 <= i < |s| => s[i] as nat)
  }

  lemma StringCodeInjective()
    ensures Injective(StringCode)
  {
    forall x: string, y: string | StringCode(x) == StringCode(y)
      ensures x == y
    {
      assert |x| == |StringCode(x)| == |y|;
      forall i | 0 <= i < |x|
        ensures x[i] == y[i]
      {
        assert StringCode(x)[i] == StringCode(y)[i];
      }
    }
  }

  /** The reasons in key order. */
  function Reasons(r: Rejections): (keys: seq<string>)
    ensures forall k :: k in keys <==> k in r
  {
    StringCodeInjective();
    InOrder(r.Keys, StringCode)
  }

  function Counts(r: Rejections, keys: seq<string>): (counts: seq<nat>)
    requires forall k :: k in keys ==> k in r
    ensures |counts| == |keys|
  {
    seq(|keys|, i requires 0 <= i < |keys| => r[keys[i]])
  }

  function Total(r: Rejections): nat {
    SatSum(Counts(r, Reasons(r)))
  }

  function Recorded(log: Log, input: Input): Log {
    Log(if input.IsClean() then log.inputs else log.inputs + [input], log.diagnostics, SatAdd(log.examined, 1))
  }

  function Diagnosed(log: Log, d: Diagnostic): Log {
    log.(diagnostics := log.diagnostics + [d])
  }

  function Merged(a: Log, b: Log): Log {
    Log(a.inputs + b.inputs, a.diagnostics + b.diagnostics, SatAdd(a.examined, b.examined))
  }

  // ----- The log's own counters

  function RejectedRecords(log: Log): nat {
    SatSum(seq(|log.inputs|, i requires 0 <= i < |log.inputs| => Total(log.inputs[i].rejections)))
  }

  function CountPartial(inputs: seq<Input>): nat {
    if |inputs| == 0 then 0
    else CountPartial(inputs[..|inputs| - 1]) + if inputs[|inputs| - 1].status.Partial? then 1 else 0
  }

  function CountUnavailable(inputs: seq<Input>): nat {
    if |inputs| == 0 then 0
    else CountUnavailable(inputs[..|inputs| - 1]) + if inputs[|inputs| - 1].status.Unavailable? then 1 else 0
  }

  /** Inputs read to the end, with something rejected. */
  function CountRejected(inputs: seq<Input>): nat {
    if |inputs| == 0 then 0
    else CountRejected(inputs[..|inputs| - 1])
         + var last := inputs[|inputs| - 1]; if last.status.Complete? && Total(last.rejections) > 0 then 1 else 0
  }

  // A vector's length always fits a machine word, so saturating the counts changes nothing.

  function PartialInputs(log: Log): nat {
    Sat(CountPartial(log.inputs))
  }

  function FailedInputs(log: Log): nat {
    Sat(CountUnavailable(log.inputs))
  }

  function IssueCount(log: Log): nat {
    SatAdd(SatAdd(RejectedRecords(log), SatAdd(PartialInputs(log), FailedInputs(log))), Sat(|log.diagnostics|))
  }

  function Reported(log: Log): set<(ClientId, string)> {
    set i | 0 <= i < |log.inputs| :: (log.inputs[i].client, log.inputs[i].path)
  }

  /** Inputs known only from diagnostics; a diagnostic without client concerns no input. */
  function DiagnosedOnly(log: Log): set<(ClientId, string)> {
    set i | 0 <= i < |log.diagnostics| && log.diagnostics[i].client.Some?
            && (log.diagnostics[i].client.value, log.diagnostics[i].path) !in Reported(log)
      :: (log.diagnostics[i].client.value, log.diagnostics[i].path)
  }

  function CleanInputs(log: Log): nat {
    var known := |log.inputs| + |DiagnosedOnly(log)|;
    if log.examined >= known then log.examined - known else 0
  }

  function DegradedInputs(log: Log): nat {
    SatAdd(CountRejected(log.inputs), |DiagnosedOnly(log)|)
  }

  // ----- Grouping

  datatype Key = Key(client: Option<ClientId>, kind: IssueKind)

  datatype Issue = Issue(
    level: Level, client: Option<ClientId>, kind: IssueKind, affected: nat, rejected: Option<nat>, handling: Handling)

  datatype Summary = Summary(clean: nat, degraded: nat, issues: seq<Issue>)

  /** One contribution to one issue. */
  datatype Mark = Mark(key: Key, rejected: nat)

  function RejectionMarks(client: ClientId, r: Rejections, keys: seq<string>): seq<Mark>
    requires forall k :: k in keys ==> k in r
  {
    if |keys| == 0 then []
    else
      var last := keys[|keys| - 1];
      RejectionMarks(client, r, keys[..|keys| - 1])
      + if r[last] > 0 then [Mark(Key(Some(client), RecordRejection(last)), r[last])] else []
  }

  function StatusMarks(input: Input): seq<Mark> {
    match input.status
    case Complete => []
    case Partial(_) => [Mark(Key(Some(input.client), PartialInput), 0)]
    case Unavailable(_) => [Mark(Key(Some(input.client), InputUnavailable), 0)]
  }

  function MarksOf(input: Input): seq<Mark> {
    RejectionMarks(input.client, input.rejections, Reasons(input.rejections)) + StatusMarks(input)
  }

  function InputMarks(inputs: seq<Input>): seq<Mark> {
    if |inputs| == 0 then [] else InputMarks(inputs[..|inputs| - 1]) + MarksOf(inputs[|inputs| - 1])
  }

  function DiagnosticMarks(ds: seq<Diagnostic>): seq<Mark> {
    seq(|ds|, i requires 0 <= i < |ds| => Mark(Key(ds[i].client, ds[i].kind.Issue()), 0))
  }

  function Marks(log: Log): seq<Mark> {
    InputMarks(log.inputs) + DiagnosticMarks(log.diagnostics)
  }

  type Grouped = map<Key, Issue>

  function Fresh(k: Key): Issue {
    Issue(k.kind.Level(), k.client, k.kind, 0, if k.kind.RecordRejection? then Some(0) else None, k.kind.Handling())
  }

  /** The issue of the mark's key is created on first use, then counted up. */
  function AddMark(g: Grouped, m: Mark): Grouped {
    var entry := if m.key in g then g[m.key] else Fresh(m.key);
    var rejected := if entry.rejected.Some? then entry.rejected.value else 0;
    g[m.key := entry.(affected := SatAdd(entry.affected, 1),
                      rejected := if m.key.kind.RecordRejection? then Some(SatAdd(rejected, m.rejected))
                                  else entry.rejected)]
  }

  function AddMarks(g: Grouped, marks: seq<Mark>): Grouped {
    if |marks| == 0 then g else AddMark(AddMarks(g, marks[..|marks| - 1]), marks[|marks| - 1])
  }

  function LevelCode(level: Level): nat {
    if level.Warning? then 0 else 1
  }

  function KindCode(kind: IssueKind): seq<nat> {
    match kind
    case RecordRejection(key) => [0] + StringCode(key)
    case PartialInput => [1]
    case InputUnavailable => [2]
    case InputCacheUnavailable => [3]
    case InputCacheReadFailed => [4]
    case InputCacheWriteFailed => [5]
  }

  /** Issues are listed by level, then client, then kind. */
  function KeyCode(k: Key): seq<nat> {
    [LevelCode(k.kind.Level()), if k.client.Some? then k.client.value + 1 else 0] + KindCode(k.kind)
  }

  lemma KeyCodeInjective()
    ensures Injective(KeyCode)
  {
    StringCodeInjective();
    forall x: Key, y: Key | KeyCode(x) == KeyCode(y)
      ensures x == y
    {
      assert KeyCode(x)[1] == KeyCode(y)[1];
      assert KindCode(x.kind) == KeyCode(x)[2..] == KeyCode(y)[2..] == KindCode(y.kind);
      assert KindCode(x.kind)[0] == KindCode(y.kind)[0];
      if x.kind.RecordRejection? {
        assert StringCode(x.kind.key) == KindCode(x.kind)[1..];
        assert StringCode(y.kind.key) == KindCode(y.kind)[1..];
      }
    }
  }

  function Order(g: Grouped): (keys: seq<Key>)
    ensures |keys| == |g| && forall k :: k in keys <==> k in g
  {
    KeyCodeInjective();
    InOrder(g.Keys, KeyCode)
  }

  function Listed(g: Grouped): (issues: seq<Issue>)
    ensures |issues| == |g|
  {
    var keys := Order(g);
    seq(|keys|, i requires 0 <= i < |keys| => g[keys[i]])
  }

  function Summarize(log: Log): Summary {
    Summary(CleanInputs(log), DegradedInputs(log), Listed(AddMarks(map[], Marks(log))))
  }

  // ----- What the grouping contains

  /** A selection of issue kinds. */
  datatype Selection = Only(kind: IssueKind) | AnyCache

  predicate Selects(sel: Selection, kind: IssueKind) {
    match sel
    case Only(k) => k == kind
    case AnyCache => kind.IsCacheDiagnostic()
  }

  /** What is added up over marks: their number, their rejected records, or their number by kind. */
  datatype Weight = One | Amount | OneIf(sel: Selection)

  function Weigh(f: Weight, m: Mark): nat {
    match f
    case One => 1
    case Amount => m.rejected
    case OneIf(sel) => if Selects(sel, m.key.kind) then 1 else 0
  }

  /** The sum of `f` over the marks of one key. */
  function At(marks: seq<Mark>, k: Key, f: Weight): nat {
    if |marks| == 0 then 0
    else At(marks[..|marks| - 1], k, f) + if marks[|marks| - 1].key == k then Weigh(f, marks[|marks| - 1]) else 0
  }

  /** The sum of `f` over all marks. */
  function All(marks: seq<Mark>, f: Weight): nat {
    if |marks| == 0 then 0 else All(marks[..|marks| - 1], f) + Weigh(f, marks[|marks| - 1])
  }

  /** The issue that all marks of a key add up to. */
  function IssueAt(marks: seq<Mark>, k: Key): Issue {
    Fresh(k).(affected := Sat(At(marks, k, One)),
              rejected := if k.kind.RecordRejection? then Some(Sat(At(marks, k, Amount))) else None)
  }

  /** Grouping one mark after the other yields, per key, the saturated sums over its marks. */
  lemma {:induction false} GroupedByKey(marks: seq<Mark>)
    ensures forall k :: k in AddMarks(map[], marks) <==> At(marks, k, One) > 0
    ensures forall k :: k in AddMarks(map[], marks) ==> AddMarks(map[], marks)[k] == IssueAt(marks, k)
  {
    if |marks| > 0 {
      GroupedByKey(marks[..|marks| - 1]);
      NothingAt(marks[..|marks| - 1], marks[|marks| - 1].key);
    }
  }

  lemma {:induction false} NothingAt(marks: seq<Mark>, k: Key)
    ensures At(marks, k, One) == 0 ==> At(marks, k, Amount) == 0
  {
    if |marks| > 0 {
      NothingAt(marks[..|marks| - 1], k);
    }
  }

  // ----- Counters of a summary

  /** The rejected-record counts of the issues that carry one. */
  function RejectedOf(issues: seq<Issue>): seq<nat> {
    if |issues| == 0 then []
    else
      RejectedOf(issues[..|issues| - 1])
      + if issues[|issues| - 1].rejected.Some? then [issues[|issues| - 1].rejected.value] else []
  }

  function AffectedOf(issues: seq<Issue>, sel: Selection): seq<nat> {
    if |issues| == 0 then []
    else
      AffectedOf(issues[..|issues| - 1], sel)
      + if Selects(sel, issues[|issues| - 1].kind) then [issues[|issues| - 1].affected] else []
  }

  function SummaryRejected(s: Summary): nat {
    SatSum(RejectedOf(s.issues))
  }

  function AffectedInputs(s: Summary, kind: IssueKind): nat {
    match CheckedSum(AffectedOf(s.issues, Only(kind)))
    case Some(total) => total
    case None => U64_MAX
  }

  function SummaryPartial(s: Summary): nat {
    AffectedInputs(s, PartialInput)
  }

  function SummaryFailed(s: Summary): nat {
    AffectedInputs(s, InputUnavailable)
  }

  function SummaryIssueCount(s: Summary): nat {
    SatAdd(SatAdd(SummaryRejected(s), SatAdd(SummaryPartial(s), SummaryFailed(s))),
           SatSum(AffectedOf(s.issues, AnyCache)))
  }

  predicate IsComplete(s: Summary) {
    |s.issues| == 0
  }

  predicate RequiresInputRetry(s: Summary) {
    SummaryPartial(s) > 0 || SummaryFailed(s) > 0
  }

  // ----- Every contribution is counted under exactly one key

  /** The per-key sums, in the order of the listing. */
  function Columns(marks: seq<Mark>, keys: seq<Key>, f: Weight): (r: seq<nat>)
    ensures |r| == |keys|
  {
    seq(|keys|, i requires 0 <= i < |keys| => At(marks, keys[i], f))
  }

  lemma {:induction false} ColumnsAddUp(marks: seq<Mark>, keys: seq<Key>, f: Weight)
    requires forall i, j :: 0 <= i < j < |keys| ==> keys[i] != keys[j]
    requires forall i :: 0 <= i < |marks| ==> marks[i].key in keys
    ensures Sum(Columns(marks, keys, f)) == All(marks, f)
  {
    var n := |marks|;
    if n == 0 {
      SumOfZeros(Columns(marks, keys, f));
    } else {
      var m := marks[n - 1];
      ColumnsAddUp(marks[..n - 1], keys, f);
      assert m.key in keys;
      var p :| 0 <= p < |keys| && keys[p] == m.key;
      OneColumnGrows(marks, keys, f, p);
    }
  }

  lemma OneColumnGrows(marks: seq<Mark>, keys: seq<Key>, f: Weight, p: nat)
    requires |marks| > 0 && p < |keys| && keys[p] == marks[|marks| - 1].key
    requires forall i, j :: 0 <= i < j < |keys| ==> keys[i] != keys[j]
    ensures Sum(Columns(marks, keys, f))
         == Sum(Columns(marks[..|marks| - 1], keys, f)) + Weigh(f, marks[|marks| - 1])
  {
    var before, x := Columns(marks[..|marks| - 1], keys, f), Weigh(f, marks[|marks| - 1]);
    assert Columns(marks, keys, f) == before[p := before[p] + x];
    SumUpdate(before, p, before[p] + x);
  }

  lemma {:induction false} SumOfZeros(s: seq<nat>)
    requires forall i :: 0 <= i < |s| ==> s[i] == 0
    ensures Sum(s) == 0
  {
    if |s| > 0 {
      SumOfZeros(s[..|s| - 1]);
    }
  }

  lemma {:induction false} MarkIsCounted(marks: seq<Mark>, i: nat)
    requires i < |marks|
    ensures At(marks, marks[i].key, One) > 0
  {
    if i < |marks| - 1 {
      MarkIsCounted(marks[..|marks| - 1], i);
    }
  }

  /** `issues` lists, under distinct keys that cover all marks, what the marks of each key add up to. */
  ghost predicate Lists(issues: seq<Issue>, marks: seq<Mark>, keys: seq<Key>) {
    && |issues| == |keys|
    && (forall i, j :: 0 <= i < j < |keys| ==> keys[i] != keys[j])
    && (forall i :: 0 <= i < |marks| ==> marks[i].key in keys)
    && (forall i :: 0 <= i < |keys| ==> issues[i] == IssueAt(marks, keys[i]))
    && (forall i :: 0 <= i < |keys| ==> At(marks, keys[i], One) > 0)
  }

  lemma ListingCovers(marks: seq<Mark>) returns (keys: seq<Key>)
    ensures Lists(Listed(AddMarks(map[], marks)), marks, keys)
  {
    var g := AddMarks(map[], marks);
    keys := Order(g);
    GroupedByKey(marks);
    KeyCodeInjective();
    InOrderIsDistinct(g.Keys, KeyCode);
    forall i | 0 <= i < |marks|
      ensures marks[i].key in keys
    {
      MarkIsCounted(marks, i);
      assert marks[i].key in g;
    }
  }

  lemma {:induction false} RejectedOfListed(issues: seq<Issue>, marks: seq<Mark>, keys: seq<Key>)
    requires |issues| == |keys| && forall i :: 0 <= i < |keys| ==> issues[i] == IssueAt(marks, keys[i])
    requires forall i :: 0 <= i < |marks| ==> marks[i].key.kind.RecordRejection? || marks[i].rejected == 0
    ensures SatSum(RejectedOf(issues)) == Sat(NatSum(Columns(marks, keys, Amount)))
  {
    var n := |issues|;
    if n > 0 {
      RejectedOfListed(issues[..n - 1], marks, keys[..n - 1]);
      assert Columns(marks, keys, Amount)[..n - 1] == Columns(marks, keys[..n - 1], Amount);
      SatSumLast(RejectedOf(issues[..n - 1]), issues[n - 1].rejected);
      if issues[n - 1].rejected.None? {
        NothingRejectedAt(marks, keys[n - 1]);
      }
    }
  }

  function NatSum(s: seq<nat>): nat {
    CheckedSumIsSum(s);
    Sum(s)
  }

  lemma SatSumLast(s: seq<nat>, x: Option<nat>)
    ensures SatSum(s + if x.Some? then [x.value] else []) == SatAdd(SatSum(s), if x.Some? then x.value else 0)
  {
    SatSumSmall(s);
    if x.Some? {
      assert (s + [x.value])[..|s|] == s;
    } else {
      assert s + [] == s;
    }
  }

  lemma {:induction false} SatSumSmall(s: seq<nat>)
    ensures SatSum(s) <= U64_MAX
  {
  }

  lemma {:induction false} NothingRejectedAt(marks: seq<Mark>, k: Key)
    requires !k.kind.RecordRejection?
    requires forall i :: 0 <= i < |marks| ==> marks[i].key.kind.RecordRejection? || marks[i].rejected == 0
    ensures At(marks, k, Amount) == 0
  {
    if |marks| > 0 {
      NothingRejectedAt(marks[..|marks| - 1], k);
    }
  }

  lemma {:induction false} OneIfAt(marks: seq<Mark>, k: Key, sel: Selection)
    ensures At(marks, k, OneIf(sel)) == if Selects(sel, k.kind) then At(marks, k, One) else 0
  {
    if |marks| > 0 {
      OneIfAt(marks[..|marks| - 1], k, sel);
    }
  }

  /** The affected counts of the selected issues, both as a saturating and as a checked sum. */
  lemma {:induction false} AffectedOfListed(
      issues: seq<Issue>, marks: seq<Mark>, keys: seq<Key>, sel: Selection)
    requires |issues| == |keys| && forall i :: 0 <= i < |keys| ==> issues[i] == IssueAt(marks, keys[i])
    ensures SatSum(AffectedOf(issues, sel)) == Sat(NatSum(Columns(marks, keys, OneIf(sel))))
  {
    var n := |issues|;
    if n > 0 {
      AffectedOfListed(issues[..n - 1], marks, keys[..n - 1], sel);
      var f := OneIf(sel);
      assert Columns(marks, keys, f)[..n - 1] == Columns(marks, keys[..n - 1], f);
      OneIfAt(marks, keys[n - 1], sel);
      SatSumLast(AffectedOf(issues[..n - 1], sel),
                 if Selects(sel, issues[n - 1].kind) then Some(issues[n - 1].affected) else None);
    }
  }

  lemma CheckedOrMax(s: seq<nat>)
    ensures (match CheckedSum(s) case Some(total) => total case None => U64_MAX) == SatSum(s)
  {
    CheckedSumIsSum(s);
    SatSumIsSat(s, s);
  }

  // ----- The summary's counters are the log's

  lemma {:induction false} AllOfConcat(a: seq<Mark>, b: seq<Mark>, f: Weight)
    ensures All(a + b, f) == All(a, f) + All(b, f)
  {
    if |b| == 0 {
      assert a + b == a;
    } else {
      AllOfConcat(a, b[..|b| - 1], f);
      assert (a + b)[..|a + b| - 1] == a + b[..|b| - 1];
    }
  }

  lemma {:induction false} AllOfRejections(client: ClientId, r: Rejections, keys: seq<string>)
    requires forall k :: k in keys ==> k in r
    ensures All(RejectionMarks(client, r, keys), Amount) == NatSum(Counts(r, keys))
  {
    var n := |keys|;
    if n > 0 {
      var rest, last := keys[..n - 1], keys[n - 1];
      AllOfRejections(client, r, rest);
      assert Counts(r, keys)[..n - 1] == Counts(r, rest);
      var marks := RejectionMarks(client, r, rest);
      if r[last] > 0 {
        assert (marks + [Mark(Key(Some(client), RecordRejection(last)), r[last])])[..|marks|] == marks;
      } else {
        assert marks + [] == marks;
      }
    }
  }

  lemma {:induction false} RejectionMarkKinds(client: ClientId, r: Rejections, keys: seq<string>)
    requires forall k :: k in keys ==> k in r
    ensures forall i :: 0 <= i < |RejectionMarks(client, r, keys)| ==>
              RejectionMarks(client, r, keys)[i].key.kind.RecordRejection?
  {
    if |keys| > 0 {
      RejectionMarkKinds(client, r, keys[..|keys| - 1]);
    }
  }

  lemma {:induction false} NoneOfRejections(marks: seq<Mark>, sel: Selection)
    requires forall i :: 0 <= i < |marks| ==> marks[i].key.kind.RecordRejection? && !Selects(sel, marks[i].key.kind)
    ensures All(marks, OneIf(sel)) == 0
  {
    if |marks| > 0 {
      NoneOfRejections(marks[..|marks| - 1], sel);
    }
  }

  /** Rejections carry the amounts, and nothing else is counted among the other kinds. */
  lemma OneKindOfInput(input: Input, sel: Selection)
    requires forall key :: !Selects(sel, RecordRejection(key))
    ensures All(MarksOf(input), OneIf(sel)) == All(StatusMarks(input), OneIf(sel))
  {
    var r := RejectionMarks(input.client, input.rejections, Reasons(input.rejections));
    RejectionMarkKinds(input.client, input.rejections, Reasons(input.rejections));
    AllOfConcat(r, StatusMarks(input), OneIf(sel));
    NoneOfRejections(r, sel);
  }

  lemma AllOfStatus(input: Input, f: Weight)
    ensures All(StatusMarks(input), f) == if |StatusMarks(input)| == 1 then Weigh(f, StatusMarks(input)[0]) else 0
  {
    if |StatusMarks(input)| == 1 {
      assert StatusMarks(input)[..0] == [];
    }
  }

  lemma AmountOfInput(input: Input)
    ensures All(MarksOf(input), Amount) == NatSum(Counts(input.rejections, Reasons(input.rejections)))
  {
    var r := RejectionMarks(input.client, input.rejections, Reasons(input.rejections));
    AllOfRejections(input.client, input.rejections, Reasons(input.rejections));
    AllOfConcat(r, StatusMarks(input), Amount);
    AllOfStatus(input, Amount);
  }

  /** What one input contributes to each counter of inputs. */
  lemma AllOfInput(input: Input)
    ensures All(MarksOf(input), OneIf(Only(PartialInput))) == if input.status.Partial? then 1 else 0
    ensures All(MarksOf(input), OneIf(Only(InputUnavailable))) == if input.status.Unavailable? then 1 else 0
    ensures All(MarksOf(input), OneIf(AnyCache)) == 0
  {
    OneKindOfInput(input, Only(PartialInput));
    OneKindOfInput(input, Only(InputUnavailable));
    OneKindOfInput(input, AnyCache);
    AllOfStatus(input, OneIf(Only(PartialInput)));
    AllOfStatus(input, OneIf(Only(InputUnavailable)));
    AllOfStatus(input, OneIf(AnyCache));
  }

  function ExactTotals(inputs: seq<Input>): (r: seq<nat>)
    ensures |r| == |inputs|
  {
    seq(|inputs|, i requires 0 <= i < |inputs| =>
      NatSum(Counts(inputs[i].rejections, Reasons(inputs[i].rejections))))
  }

  lemma AllOfLast(inputs: seq<Input>, f: Weight)
    requires |inputs| > 0
    ensures All(InputMarks(inputs), f)
         == All(InputMarks(inputs[..|inputs| - 1]), f) + All(MarksOf(inputs[|inputs| - 1]), f)
  {
    AllOfConcat(InputMarks(inputs[..|inputs| - 1]), MarksOf(inputs[|inputs| - 1]), f);
  }

  lemma {:induction false} AmountsOfInputs(inputs: seq<Input>)
    ensures All(InputMarks(inputs), Amount) == NatSum(ExactTotals(inputs))
  {
    var n := |inputs|;
    if n > 0 {
      AmountsOfInputs(inputs[..n - 1]);
      AmountOfInput(inputs[n - 1]);
      AllOfLast(inputs, Amount);
      assert ExactTotals(inputs)[..n - 1] == ExactTotals(inputs[..n - 1]);
    }
  }

  lemma {:induction false} AllOfInputs(inputs: seq<Input>)
    ensures All(InputMarks(inputs), OneIf(Only(PartialInput))) == CountPartial(inputs)
    ensures All(InputMarks(inputs), OneIf(Only(InputUnavailable))) == CountUnavailable(inputs)
    ensures All(InputMarks(inputs), OneIf(AnyCache)) == 0
  {
    var n := |inputs|;
    if n > 0 {
      AllOfInputs(inputs[..n - 1]);
      AllOfInput(inputs[n - 1]);
      AllOfLast(inputs, OneIf(Only(PartialInput)));
      AllOfLast(inputs, OneIf(Only(InputUnavailable)));
      AllOfLast(inputs, OneIf(AnyCache));
    }
  }

  lemma {:induction false} AllOfDiagnostics(ds: seq<Diagnostic>)
    ensures All(DiagnosticMarks(ds), Amount) == 0
    ensures All(DiagnosticMarks(ds), OneIf(Only(PartialInput))) == 0
    ensures All(DiagnosticMarks(ds), OneIf(Only(InputUnavailable))) == 0
    ensures All(DiagnosticMarks(ds), OneIf(AnyCache)) == |ds|
  {
    var n := |ds|;
    if n > 0 {
      AllOfDiagnostics(ds[..n - 1]);
      assert DiagnosticMarks(ds)[..n - 1] == DiagnosticMarks(ds[..n - 1]);
    }
  }

  lemma {:induction false} OnlyRejectionsCarryAmounts(inputs: seq<Input>)
    ensures forall i :: 0 <= i < |InputMarks(inputs)| ==>
              InputMarks(inputs)[i].key.kind.RecordRejection? || InputMarks(inputs)[i].rejected == 0
  {
    var n := |inputs|;
    if n > 0 {
      OnlyRejectionsCarryAmounts(inputs[..n - 1]);
      var last := inputs[n - 1];
      RejectionMarkKinds(last.client, last.rejections, Reasons(last.rejections));
    }
  }

  lemma RejectedIsExact(log: Log)
    ensures RejectedRecords(log) == Sat(NatSum(ExactTotals(log.inputs)))
  {
    var totals := seq(|log.inputs|, i requires 0 <= i < |log.inputs| => Total(log.inputs[i].rejections));
    forall i | 0 <= i < |totals|
      ensures totals[i] == Sat(ExactTotals(log.inputs)[i])
    {
      var r := log.inputs[i].rejections;
      SatSumIsSat(Counts(r, Reasons(r)), Counts(r, Reasons(r)));
    }
    SatSumIsSat(totals, ExactTotals(log.inputs));
  }

  lemma ListedColumns(issues: seq<Issue>, marks: seq<Mark>, keys: seq<Key>, f: Weight)
    requires Lists(issues, marks, keys)
    ensures NatSum(Columns(marks, keys, f)) == All(marks, f)
  {
    ColumnsAddUp(marks, keys, f);
  }

  lemma ListedSelection(issues: seq<Issue>, marks: seq<Mark>, keys: seq<Key>, sel: Selection)
    requires Lists(issues, marks, keys)
    ensures SatSum(AffectedOf(issues, sel)) == Sat(All(marks, OneIf(sel)))
  {
    AffectedOfListed(issues, marks, keys, sel);
    ListedColumns(issues, marks, keys, OneIf(sel));
  }

  lemma ListedRejections(log: Log, issues: seq<Issue>, keys: seq<Key>)
    requires Lists(issues, Marks(log), keys)
    ensures SatSum(RejectedOf(issues)) == Sat(All(Marks(log), Amount))
  {
    OnlyRejectionsCarryAmounts(log.inputs);
    RejectedOfListed(issues, Marks(log), keys);
    ListedColumns(issues, Marks(log), keys, Amount);
  }

  /** Each counter, summed over all marks of the log. */
  lemma AllOfLog(log: Log)
    ensures All(Marks(log), Amount) == NatSum(ExactTotals(log.inputs))
    ensures All(Marks(log), OneIf(Only(PartialInput))) == CountPartial(log.inputs)
    ensures All(Marks(log), OneIf(Only(InputUnavailable))) == CountUnavailable(log.inputs)
    ensures All(Marks(log), OneIf(AnyCache)) == |log.diagnostics|
  {
    var a, b := InputMarks(log.inputs), DiagnosticMarks(log.diagnostics);
    AmountsOfInputs(log.inputs);
    AllOfInputs(log.inputs);
    AllOfDiagnostics(log.diagnostics);
    AllOfConcat(a, b, Amount);
    AllOfConcat(a, b, OneIf(Only(PartialInput)));
    AllOfConcat(a, b, OneIf(Only(InputUnavailable)));
    AllOfConcat(a, b, OneIf(AnyCache));
  }

  /** Over any log, the grouped summary counts exactly what the log counts. */
  lemma SummaryCountsTheLog(log: Log)
    ensures SummaryRejected(Summarize(log)) == RejectedRecords(log)
    ensures SummaryPartial(Summarize(log)) == PartialInputs(log)
    ensures SummaryFailed(Summarize(log)) == FailedInputs(log)
    ensures SummaryIssueCount(Summarize(log)) == IssueCount(log)
  {
    var keys := ListingCovers(Marks(log));
    AllOfLog(log);
    RejectedIsExact(log);
    CountsOfListing(log, Summarize(log), keys);
  }

  lemma CountsOfListing(log: Log, s: Summary, keys: seq<Key>)
    requires Lists(s.issues, Marks(log), keys)
    ensures SummaryRejected(s) == Sat(All(Marks(log), Amount))
    ensures SummaryPartial(s) == Sat(All(Marks(log), OneIf(Only(PartialInput))))
    ensures SummaryFailed(s) == Sat(All(Marks(log), OneIf(Only(InputUnavailable))))
    ensures SatSum(AffectedOf(s.issues, AnyCache)) == Sat(All(Marks(log), OneIf(AnyCache)))
  {
    ListedRejections(log, s.issues, keys);
    ListedSelection(s.issues, Marks(log), keys, Only(PartialInput));
    ListedSelection(s.issues, Marks(log), keys, Only(InputUnavailable));
    ListedSelection(s.issues, Marks(log), keys, AnyCache);
    CheckedOrMax(AffectedOf(s.issues, Only(PartialInput)));
    CheckedOrMax(AffectedOf(s.issues, Only(InputUnavailable)));
  }

  // ----- Validation

  datatype ValidationError =
    | EmptyIssue(kind: IssueKind)
    | InvalidLevel(kind: IssueKind, actual: Level)
    | InvalidHandling(kind: IssueKind, found: Handling)
    | InvalidRejectedRecords(kind: IssueKind)
    | DuplicateIssue(client: Option<ClientId>, kind: IssueKind)
    | InvalidDegradedInputCount
    | DerivedCountMismatch(field: string)

  function ValidateIssue(issue: Issue): Option<ValidationError> {
    if issue.affected == 0 then Some(EmptyIssue(issue.kind))
    else if issue.level != issue.kind.Level() then Some(InvalidLevel(issue.kind, issue.level))
    else if issue.handling != issue.kind.Handling() then Some(InvalidHandling(issue.kind, issue.handling))
    else if (if issue.kind.RecordRejection? then !(issue.rejected.Some? && issue.rejected.value > 0)
             else issue.rejected.Some?) then Some(InvalidRejectedRecords(issue.kind))
    else None
  }

  function ValidateIssues(issues: seq<Issue>, seen: set<Key>): Option<ValidationError> {
    if |issues| == 0 then None
    else
      match ValidateIssue(issues[0])
      case Some(e) => Some(e)
      case None =>
        var k := Key(issues[0].client, issues[0].kind);
        if k in seen then Some(DuplicateIssue(k.client, k.kind))
        else ValidateIssues(issues[1..], seen + {k})
  }

  function Validate(s: Summary): Option<ValidationError> {
    match ValidateIssues(s.issues, {})
    case Some(e) => Some(e)
    case None =>
      if s.degraded > 0 && !exists i :: 0 <= i < |s.issues| && s.issues[i].level == Warning
      then Some(InvalidDegradedInputCount) else None
  }

  ghost predicate SoundIssues(issues: seq<Issue>, seen: set<Key>) {
    && (forall i :: 0 <= i < |issues| ==> ValidateIssue(issues[i]).None?)
    && (forall i :: 0 <= i < |issues| ==> Key(issues[i].client, issues[i].kind) !in seen)
    && (forall i, j :: 0 <= i < j < |issues| ==>
          Key(issues[i].client, issues[i].kind) != Key(issues[j].client, issues[j].kind))
  }

  lemma {:induction false} ValidateIssuesIsSound(issues: seq<Issue>, seen: set<Key>)
    ensures ValidateIssues(issues, seen).None? <==> SoundIssues(issues, seen)
    decreases |issues|
  {
    if |issues| > 0 {
      var k, rest := Key(issues[0].client, issues[0].kind), issues[1..];
      ValidateIssuesIsSound(rest, seen + {k});
      assert forall i :: 1 <= i < |issues| ==> issues[i] == rest[i - 1];
      assert forall i :: 0 <= i < |rest| ==> rest[i] == issues[i + 1];
    }
  }

  /** A summary is valid if its issues are sound, and if degraded inputs come with a warning. */
  lemma ValidateIsExact(s: Summary)
    ensures Validate(s).None? <==>
            && (forall i :: 0 <= i < |s.issues| ==> ValidateIssue(s.issues[i]).None?)
            && (forall i, j :: 0 <= i < j < |s.issues| ==>
                  s.issues[i].client != s.issues[j].client || s.issues[i].kind != s.issues[j].kind)
            && (s.degraded > 0 ==> exists issue :: issue in s.issues && issue.level == Warning)
  {
    ValidateIssuesIsSound(s.issues, {});
  }

  /** An input with rejections shows up under one of its reasons. */
  lemma RejectionsAreMarked(client: ClientId, r: Rejections, keys: seq<string>)
    requires forall k :: k in keys ==> k in r
    requires SatSum(Counts(r, keys)) > 0
    ensures |RejectionMarks(client, r, keys)| > 0
  {
    if |keys| > 0 && r[keys[|keys| - 1]] == 0 {
      assert Counts(r, keys)[..|keys| - 1] == Counts(r, keys[..|keys| - 1]);
      RejectionsAreMarked(client, r, keys[..|keys| - 1]);
    }
  }

  lemma {:induction false} RejectedInputIsMarked(inputs: seq<Input>) returns (i: nat)
    requires CountRejected(inputs) > 0
    ensures i < |InputMarks(inputs)| && InputMarks(inputs)[i].key.kind.Level() == Warning
  {
    var rest, last := inputs[..|inputs| - 1], inputs[|inputs| - 1];
    if last.status.Complete? && Total(last.rejections) > 0 {
      RejectionsAreMarked(last.client, last.rejections, Reasons(last.rejections));
      RejectionMarkKinds(last.client, last.rejections, Reasons(last.rejections));
      i := |InputMarks(rest)|;
      assert InputMarks(inputs)[i] == RejectionMarks(last.client, last.rejections, Reasons(last.rejections))[0];
    } else {
      i := RejectedInputIsMarked(rest);
    }
  }

  lemma DegradedIsMarked(log: Log) returns (i: nat)
    requires DegradedInputs(log) > 0
    ensures i < |Marks(log)| && Marks(log)[i].key.kind.Level() == Warning
  {
    if CountRejected(log.inputs) > 0 {
      i := RejectedInputIsMarked(log.inputs);
    } else {
      assert DiagnosedOnly(log) != {};
      var d :| 0 <= d < |log.diagnostics|;
      i := |InputMarks(log.inputs)| + d;
      assert Marks(log)[i] == DiagnosticMarks(log.diagnostics)[d];
    }
  }

  lemma ListedIssuesAreSound(log: Log, issues: seq<Issue>, keys: seq<Key>)
    requires Lists(issues, Marks(log), keys)
    ensures ValidateIssues(issues, {}).None?
  {
    forall i | 0 <= i < |issues|
      ensures ValidateIssue(issues[i]).None?
    {
      if keys[i].kind.RecordRejection? {
        RejectionCountsArePositive(log, keys[i]);
      }
    }
    ValidateIssuesIsSound(issues, {});
  }

  /** Whatever the log, its summary is one that validation accepts. */
  lemma SummaryValidates(log: Log)
    ensures Validate(Summarize(log)).None?
  {
    var keys := ListingCovers(Marks(log));
    var s := Summarize(log);
    ListedIssuesAreSound(log, s.issues, keys);
    if s.degraded > 0 {
      var m := DegradedIsMarked(log);
      assert Marks(log)[m].key in keys;
      var i :| 0 <= i < |keys| && keys[i] == Marks(log)[m].key;
      assert s.issues[i].level == Warning;
    }
  }

  lemma RejectionCountsArePositive(log: Log, k: Key)
    requires k.kind.RecordRejection? && At(Marks(log), k, One) > 0
    ensures At(Marks(log), k, Amount) > 0
  {
    RejectionsArePositive(log.inputs);
    PositiveAt(Marks(log), k);
  }

  ghost predicate PositiveAmounts(marks: seq<Mark>) {
    forall i :: 0 <= i < |marks| && marks[i].key.kind.RecordRejection? ==> marks[i].rejected > 0
  }

  lemma {:induction false} RejectionsArePositive(inputs: seq<Input>)
    ensures PositiveAmounts(InputMarks(inputs))
  {
    if |inputs| > 0 {
      RejectionsArePositive(inputs[..|inputs| - 1]);
      RejectionsOfOne(inputs[|inputs| - 1]);
    }
  }

  lemma RejectionsOfOne(input: Input)
    ensures PositiveAmounts(MarksOf(input))
  {
    PositiveRejections(input.client, input.rejections, Reasons(input.rejections));
  }

  lemma {:induction false} PositiveRejections(client: ClientId, r: Rejections, keys: seq<string>)
    requires forall k :: k in keys ==> k in r
    ensures PositiveAmounts(RejectionMarks(client, r, keys))
  {
    if |keys| > 0 {
      PositiveRejections(client, r, keys[..|keys| - 1]);
    }
  }

  lemma {:induction false} PositiveAt(marks: seq<Mark>, k: Key)
    requires forall i :: 0 <= i < |marks| && marks[i].key == k ==> marks[i].rejected > 0
    requires At(marks, k, One) > 0
    ensures At(marks, k, Amount) > 0
  {
    if marks[|marks| - 1].key != k {
      PositiveAt(marks[..|marks| - 1], k);
    }
  }
}
