/** The serialized form of a health summary, with its redundant counters. */
module HealthWire {
  import opened Options
  import opened InputHealth

  /** Kinds and handlings travel as plain keys. */
  datatype WireIssue = WireIssue(
    level: Level, client: Option<ClientId>, issue: string, affected: nat, rejected: Option<nat>, handling: string)

  datatype WireSummary = WireSummary(
    complete: bool, clean: nat, degraded: nat, rejectedRecords: nat, partialInputs: nat, failedInputs: nat,
    issues: seq<WireIssue>)

  function IssueToWire(i: Issue): WireIssue {
    WireIssue(i.level, i.client, i.kind.AsStr(), i.affected, i.rejected, i.handling.AsStr())
  }

  function IssueFromWire(w: WireIssue): Issue {
    Issue(w.level, w.client, KindFromKey(w.issue), w.affected, w.rejected, HandlingFromKey(w.handling))
  }

  function IssuesToWire(issues: seq<Issue>): seq<WireIssue> {
    seq(|issues|, i requires 0 <= i < |issues| => IssueToWire(issues[i]))
  }

  function IssuesFromWire(issues: seq<WireIssue>): seq<Issue> {
    seq(|issues|, i requires 0 <= i < |issues| => IssueFromWire(issues[i]))
  }

  function ToWire(s: Summary): WireSummary {
    WireSummary(IsComplete(s), s.clean, s.degraded, SummaryRejected(s), SummaryPartial(s), SummaryFailed(s),
                IssuesToWire(s.issues))
  }

  /** The summary is validated, then every redundant counter is checked against its issues. */
  function FromWire(w: WireSummary): Result<Summary, ValidationError> {
    var s := Summary(w.clean, w.degraded, IssuesFromWire(w.issues));
    match Validate(s)
    case Some(e) => Err(e)
    case None =>
      if w.complete != IsComplete(s) then Err(DerivedCountMismatch("complete"))
      else if w.rejectedRecords != SummaryRejected(s) then Err(DerivedCountMismatch("rejectedRecords"))
      else if w.partialInputs != SummaryPartial(s) then Err(DerivedCountMismatch("partialInputs"))
      else if w.failedInputs != SummaryFailed(s) then Err(DerivedCountMismatch("failedInputs"))
      else Ok(s)
  }

  /** No rejection reason is spelled like one of the five built-in kinds. */
  ghost predicate Unreserved(issues: seq<Issue>) {
    forall i :: 0 <= i < |issues| && issues[i].kind.RecordRejection? ==> issues[i].kind.key !in RESERVED
  }

  lemma KindRoundTrip(kind: IssueKind)
    ensures KindFromKey(kind.AsStr()) == kind <==> (kind.RecordRejection? ==> kind.key !in RESERVED)
  {
  }

  lemma KeyRoundTrip(key: string)
    ensures KindFromKey(key).AsStr() == key
    ensures KindFromKey(key).RecordRejection? ==> KindFromKey(key).key !in RESERVED
    ensures HandlingFromKey(key).AsStr() == key
  {
  }

  /** Kind by kind, what makes an issue valid, and how a valid one is written. */
  lemma ValidIssueIsWritten(i: Issue)
    ensures ValidateIssue(i).None? <==>
            i.affected > 0 &&
            match i.kind
            case RecordRejection(key) =>
              && i.rejected.Some? && i.rejected.value > 0
              && IssueToWire(i) == WireIssue(Warning, i.client, key, i.affected, i.rejected, "record-skipped")
              && i.handling == RecordSkipped
            case PartialInput => Reads(i, Error, "partial-input", "confirmed-data-kept", ConfirmedDataKept)
            case InputUnavailable => Reads(i, Error, "input-unavailable", "input-skipped", InputSkipped)
            case InputCacheUnavailable => Reads(i, Warning, "input-cache-unavailable", "cache-bypassed", CacheBypassed)
            case InputCacheReadFailed => Reads(i, Warning, "input-cache-read-failed", "input-reparsed", InputReparsed)
            case InputCacheWriteFailed =>
              Reads(i, Warning, "input-cache-write-failed", "authoritative-data-kept", AuthoritativeDataKept)
  {
  }

  predicate Reads(i: Issue, level: Level, kind: string, handling: string, h: Handling) {
    i.handling == h && IssueToWire(i) == WireIssue(level, i.client, kind, i.affected, None, handling)
  }

  /** A valid issue survives the wire unless its reason is a reserved word. */
  lemma IssueRoundTrip(i: Issue)
    requires ValidateIssue(i).None?
    ensures IssueFromWire(IssueToWire(i)) == i <==> (i.kind.RecordRejection? ==> i.kind.key !in RESERVED)
  {
    KindRoundTrip(i.kind);
  }

  /** Exactly the valid summaries without reserved reasons come back from the wire as they were. */
  lemma SummaryRoundTrip(s: Summary)
    ensures FromWire(ToWire(s)) == Ok(s) <==> Validate(s).None? && Unreserved(s.issues)
  {
    var back := IssuesFromWire(IssuesToWire(s.issues));
    ValidateIssuesIsSound(s.issues, {});
    if Validate(s).None? {
      forall i | 0 <= i < |s.issues|
        ensures back[i] == s.issues[i] <==> (s.issues[i].kind.RecordRejection? ==> s.issues[i].kind.key !in RESERVED)
      {
        IssueRoundTrip(s.issues[i]);
      }
      if Unreserved(s.issues) {
        assert back == s.issues;
      }
    }
  }

  /** An accepted wire value is exactly what its summary serializes to, counters included. */
  lemma AcceptedWireIsExact(w: WireSummary)
    requires FromWire(w).Ok?
    ensures ToWire(FromWire(w).value) == w
    ensures Validate(FromWire(w).value).None? && Unreserved(FromWire(w).value.issues)
  {
    forall i | 0 <= i < |w.issues|
      ensures IssueToWire(IssueFromWire(w.issues[i])) == w.issues[i]
    {
      KeyRoundTrip(w.issues[i].issue);
      KeyRoundTrip(w.issues[i].handling);
    }
    assert IssuesToWire(IssuesFromWire(w.issues)) == w.issues;
  }

  // ----- Reserved reasons

  /** A valid summary with a reserved reason is not read back as something else: it is refused. */
  lemma ReservedIsRefused(s: Summary)
    requires Validate(s).None? && !Unreserved(s.issues)
    ensures FromWire(ToWire(s)).Err?
  {
    ValidateIssuesIsSound(s.issues, {});
    var i :| 0 <= i < |s.issues| && s.issues[i].kind.RecordRejection? && s.issues[i].kind.key in RESERVED;
    var back := IssuesFromWire(IssuesToWire(s.issues));
    ReservedIssueIsInvalid(s.issues[i]);
    assert ValidateIssue(back[i]).Some?;
    ValidateIssuesIsSound(back, {});
  }

  /** A rejection takes the reserved kind's name, but not its handling. */
  lemma ReservedIssueIsInvalid(i: Issue)
    requires ValidateIssue(i).None? && i.kind.RecordRejection? && i.kind.key in RESERVED
    ensures ValidateIssue(IssueFromWire(IssueToWire(i))).Some?
  {
  }

  ghost predicate SomeRejects(inputs: seq<Input>, key: string) {
    exists input :: input in inputs && Rejects(input, key)
  }

  /** Some kept input has rejected records under a reserved reason. */
  ghost predicate HasReservedReason(log: Log) {
    exists key :: key in RESERVED && SomeRejects(log.inputs, key)
  }

  predicate Rejects(input: Input, key: string) {
    key in input.rejections && input.rejections[key] > 0
  }

  predicate Marked(marks: seq<Mark>, key: string) {
    exists i :: 0 <= i < |marks| && marks[i].key.kind == RecordRejection(key)
  }

  lemma {:induction false} MarkedRejections(client: ClientId, r: Rejections, keys: seq<string>, key: string)
    requires forall k :: k in keys ==> k in r
    ensures Marked(RejectionMarks(client, r, keys), key) <==> key in keys && r[key] > 0
  {
    if |keys| > 0 {
      var rest, last := keys[..|keys| - 1], keys[|keys| - 1];
      var m := Mark(Key(Some(client), RecordRejection(last)), r[last]);
      MarkedRejections(client, r, rest, key);
      MarkedConcat(RejectionMarks(client, r, rest), if r[last] > 0 then [m] else [], key);
      MarkedOne(m, key);
      assert keys == rest + [last];
    }
  }

  lemma MarkedOne(m: Mark, key: string)
    ensures Marked([m], key) <==> m.key.kind == RecordRejection(key)
    ensures !Marked([], key)
  {
    assert [m][0] == m;
  }

  lemma MarkedConcat(a: seq<Mark>, b: seq<Mark>, key: string)
    ensures Marked(a + b, key) <==> Marked(a, key) || Marked(b, key)
  {
    if i :| 0 <= i < |a| && a[i].key.kind == RecordRejection(key) {
      assert (a + b)[i] == a[i];
    }
    if i :| 0 <= i < |b| && b[i].key.kind == RecordRejection(key) {
      assert (a + b)[|a| + i] == b[i];
    }
  }

  lemma NoneMarked(input: Input, log: Log, key: string)
    ensures !Marked(StatusMarks(input), key) && !Marked(DiagnosticMarks(log.diagnostics), key)
  {
  }

  lemma MarkedInput(input: Input, key: string)
    ensures Marked(MarksOf(input), key) <==> Rejects(input, key)
  {
    var r, keys := input.rejections, Reasons(input.rejections);
    MarkedConcat(RejectionMarks(input.client, r, keys), StatusMarks(input), key);
    MarkedRejections(input.client, r, keys, key);
    NoneMarked(input, Log([], [], 0), key);
  }

  lemma SomeRejectsLast(inputs: seq<Input>, key: string)
    requires |inputs| > 0
    ensures SomeRejects(inputs, key)
        <==> SomeRejects(inputs[..|inputs| - 1], key) || Rejects(inputs[|inputs| - 1], key)
  {
    assert inputs == inputs[..|inputs| - 1] + [inputs[|inputs| - 1]];
  }

  lemma {:induction false} MarkedInputs(inputs: seq<Input>, key: string)
    ensures Marked(InputMarks(inputs), key) <==> SomeRejects(inputs, key)
  {
    if |inputs| > 0 {
      var rest, last := inputs[..|inputs| - 1], inputs[|inputs| - 1];
      MarkedInputs(rest, key);
      MarkedConcat(InputMarks(rest), MarksOf(last), key);
      MarkedInput(last, key);
      SomeRejectsLast(inputs, key);
    }
  }

  predicate Names(issues: seq<Issue>, key: string) {
    exists i :: 0 <= i < |issues| && issues[i].kind == RecordRejection(key)
  }

  lemma ListedNames(issues: seq<Issue>, marks: seq<Mark>, keys: seq<Key>, key: string)
    requires Lists(issues, marks, keys)
    ensures Names(issues, key) <==> Marked(marks, key)
  {
    assert forall i :: 0 <= i < |keys| ==> issues[i].kind == keys[i].kind;
    if i :| 0 <= i < |issues| && issues[i].kind == RecordRejection(key) {
      var m := MarkOf(marks, keys[i]);
      assert marks[m].key.kind == RecordRejection(key);
    }
    if m :| 0 <= m < |marks| && marks[m].key.kind == RecordRejection(key) {
      var i :| 0 <= i < |keys| && keys[i] == marks[m].key;
      assert issues[i].kind == RecordRejection(key);
    }
  }

  /** A summary names the reasons its log has records for. */
  lemma SummaryReasons(log: Log, key: string)
    ensures Names(Summarize(log).issues, key) <==> SomeRejects(log.inputs, key)
  {
    var keys := ListingCovers(Marks(log));
    MarkedInputs(log.inputs, key);
    MarkedConcat(InputMarks(log.inputs), DiagnosticMarks(log.diagnostics), key);
    NoneMarked(Input(0, "", Complete, map[]), log, key);
    ListedNames(Summarize(log).issues, Marks(log), keys, key);
  }

  lemma {:induction false} MarkOf(marks: seq<Mark>, k: Key) returns (m: nat)
    requires At(marks, k, One) > 0
    ensures m < |marks| && marks[m].key == k
  {
    if marks[|marks| - 1].key == k {
      m := |marks| - 1;
    } else {
      m := MarkOf(marks[..|marks| - 1], k);
    }
  }

  lemma ReservedInSummary(log: Log)
    ensures HasReservedReason(log) <==> !Unreserved(Summarize(log).issues)
  {
    var issues := Summarize(log).issues;
    if key :| key in RESERVED && SomeRejects(log.inputs, key) {
      SummaryReasons(log, key);
    }
    if i :| 0 <= i < |issues| && issues[i].kind.RecordRejection? && issues[i].kind.key in RESERVED {
      assert Names(issues, issues[i].kind.key);
      SummaryReasons(log, issues[i].kind.key);
    }
  }

  /** The summary of a log is read back as it was, or refused if the log has a reserved reason. */
  lemma LogRoundTrip(log: Log)
    ensures if HasReservedReason(log) then FromWire(ToWire(Summarize(log))).Err?
            else FromWire(ToWire(Summarize(log))) == Ok(Summarize(log))
  {
    SummaryValidates(log);
    SummaryRoundTrip(Summarize(log));
    ReservedInSummary(log);
    if HasReservedReason(log) {
      ReservedIsRefused(Summarize(log));
    }
  }

  /** One input with one record rejected for a reason spelled `partial-input`. */
  const RESERVED_LOG := Log([Input(0, "log", Complete, map["partial-input" := 1])], [], 1)

  /** Its own summary is valid, and its wire form is refused for the level of the kind it now names. */
  lemma ReservedLogIsRefused()
    ensures Validate(Summarize(RESERVED_LOG)).None?
    ensures FromWire(ToWire(Summarize(RESERVED_LOG))) == Err(InvalidLevel(PartialInput, Warning))
  {
    SummaryValidates(RESERVED_LOG);
    ReservedIssues();
    var w := ToWire(Summarize(RESERVED_LOG));
    assert w.issues[0] == WireIssue(Warning, Some(0), "partial-input", 1, Some(1), "record-skipped");
    assert IssuesFromWire(w.issues)[0] == Issue(Warning, Some(0), PartialInput, 1, Some(1), RecordSkipped);
  }

  lemma ReservedIssues()
    ensures Summarize(RESERVED_LOG).issues
         == [Issue(Warning, Some(0), RecordRejection("partial-input"), 1, Some(1), RecordSkipped)]
  {
    var m := Mark(Key(Some(0), RecordRejection("partial-input")), 1);
    ReservedMarks();
    assert [m][..0] == [];
    var g := AddMark(map[], m);
    assert AddMarks(map[], [m]) == g;
    assert g.Keys == {m.key};
    assert Order(g)[0] in g;
  }

  lemma ReservedMarks()
    ensures Marks(RESERVED_LOG) == [Mark(Key(Some(0), RecordRejection("partial-input")), 1)]
  {
    var r: Rejections := map["partial-input" := 1];
    var keys := Reasons(r);
    assert keys == ["partial-input"] by {
      assert |keys| == |r.Keys| == 1;
      assert keys[0] in r;
    }
    assert keys[..0] == [];
    var inputs := RESERVED_LOG.inputs;
    assert inputs[..0] == [];
  }
}
