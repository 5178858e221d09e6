/** How a health log classifies the inputs it has been told about, over any way of building it. */
module HealthHistory {
  import opened Words
  import opened Sums
  import opened InputHealth

  /** Clean inputs are not kept. */
  ghost predicate NoneClean(log: Log) {
    forall input :: input in log.inputs ==> !input.IsClean()
  }

  /** Inputs that are kept, or known from diagnostics alone. */
  function Known(log: Log): nat {
    |log.inputs| + |DiagnosedOnly(log)|
  }

  function Classified(log: Log): nat {
    CleanInputs(log) + DegradedInputs(log) + PartialInputs(log) + FailedInputs(log)
  }

  lemma {:induction false} NothingAddedUp(s: seq<nat>)
    ensures SatSum(s) == 0 <==> forall i :: 0 <= i < |s| ==> s[i] == 0
  {
    if |s| > 0 {
      NothingAddedUp(s[..|s| - 1]);
    }
  }

  /** An input is clean if it was read to the end and no record of it was rejected for any reason. */
  lemma CleanIsExact(input: Input)
    ensures input.IsClean() <==>
            input.status == Complete && forall key :: key in input.rejections ==> input.rejections[key] == 0
  {
    var r := input.rejections;
    var keys := Reasons(r);
    NothingAddedUp(Counts(r, keys));
    if Total(r) == 0 {
      forall key | key in r ensures r[key] == 0 {
        var i :| 0 <= i < |keys| && keys[i] == key;
        assert Counts(r, keys)[i] == r[key];
      }
    }
  }

  // ----- The four classes

  lemma {:induction false} KeptClasses(inputs: seq<Input>)
    requires forall input :: input in inputs ==> !input.IsClean()
    ensures CountRejected(inputs) + CountPartial(inputs) + CountUnavailable(inputs) == |inputs|
  {
    var n := |inputs|;
    if n > 0 {
      KeptClasses(inputs[..n - 1]);
      assert inputs[n - 1] in inputs;
    }
  }

  /** Clean, degraded, partial and failed inputs make up the examined ones unless more are known than were examined. */
  lemma ClassesAddUp(log: Log)
    requires NoneClean(log) && log.examined <= U64_MAX && Known(log) <= U64_MAX
    ensures Classified(log) == log.examined <==> Known(log) <= log.examined
  {
    KeptClasses(log.inputs);
  }

  function Identity(input: Input): (ClientId, string) {
    (input.client, input.path)
  }

  lemma DiagnosedAfterRecording(log: Log, input: Input)
    ensures DiagnosedOnly(Recorded(log, input))
         == if input.IsClean() then DiagnosedOnly(log) else DiagnosedOnly(log) - {Identity(input)}
  {
    if input.IsClean() {
      assert Recorded(log, input).inputs == log.inputs;
    } else {
      ReportedGrows(log, input);
    }
  }

  lemma ReportedGrows(log: Log, input: Input)
    requires !input.IsClean()
    ensures Reported(Recorded(log, input)) == Reported(log) + {Identity(input)}
  {
    forall id ensures id in Reported(Recorded(log, input)) <==> id in Reported(log) || id == Identity(input) {
      ReportedMeans(Recorded(log, input), id);
      ReportedMeans(log, id);
    }
  }

  lemma ReportedMeans(log: Log, id: (ClientId, string))
    ensures id in Reported(log) <==> exists input :: input in log.inputs && Identity(input) == id
  {
    if input :| input in log.inputs && Identity(input) == id {
      var i :| 0 <= i < |log.inputs| && log.inputs[i] == input;
    }
    if id in Reported(log) {
      var i :| 0 <= i < |log.inputs| && (log.inputs[i].client, log.inputs[i].path) == id;
      assert log.inputs[i] in log.inputs && Identity(log.inputs[i]) == id;
    }
  }

  lemma CountsGrow(inputs: seq<Input>, input: Input)
    requires !input.IsClean()
    ensures CountRejected(inputs + [input]) == CountRejected(inputs) + if input.status.Complete? then 1 else 0
    ensures CountPartial(inputs + [input]) == CountPartial(inputs) + if input.status.Partial? then 1 else 0
    ensures CountUnavailable(inputs + [input]) == CountUnavailable(inputs) + if input.status.Unavailable? then 1 else 0
  {
    assert (inputs + [input])[..|inputs|] == inputs;
  }

  /**
   * Recording one more input adds one to the class of its own state and to no other. An input that a
   * diagnostic had reported before and that now turns out worse gives up its place among the degraded.
   */
  lemma RecordingClassifies(log: Log, input: Input)
    requires NoneClean(log) && Known(log) <= log.examined < U64_MAX
    ensures var next, known := Recorded(log, input), Identity(input) in DiagnosedOnly(log);
      && NoneClean(next) && next.examined == log.examined + 1 && Known(next) <= next.examined
      && CleanInputs(next) == CleanInputs(log) + (if input.IsClean() || known then 1 else 0)
      && DegradedInputs(next) + (if known && !input.IsClean() then 1 else 0)
         == DegradedInputs(log) + (if !input.IsClean() && input.status.Complete? then 1 else 0)
      && PartialInputs(next) == PartialInputs(log) + (if input.status.Partial? then 1 else 0)
      && FailedInputs(next) == FailedInputs(log) + (if input.status.Unavailable? then 1 else 0)
  {
    if input.IsClean() {
      RecordingClean(log, input);
    } else {
      RecordingUnclean(log, input);
    }
  }

  lemma RecordingClean(log: Log, input: Input)
    requires Known(log) <= log.examined < U64_MAX && input.IsClean()
    ensures var next := Recorded(log, input);
      && next.examined == log.examined + 1 && Known(next) == Known(log)
      && CleanInputs(next) == CleanInputs(log) + 1 && DegradedInputs(next) == DegradedInputs(log)
      && PartialInputs(next) == PartialInputs(log) && FailedInputs(next) == FailedInputs(log)
  {
    DiagnosedAfterRecording(log, input);
  }

  lemma RecordingUnclean(log: Log, input: Input)
    requires NoneClean(log) && Known(log) <= log.examined < U64_MAX && !input.IsClean()
    ensures var next, known := Recorded(log, input), if Identity(input) in DiagnosedOnly(log) then 1 else 0;
      && next.examined == log.examined + 1 && Known(next) + known == Known(log) + 1
      && CleanInputs(next) == CleanInputs(log) + known
      && DegradedInputs(next) + known == DegradedInputs(log) + (if input.status.Complete? then 1 else 0)
      && PartialInputs(next) == PartialInputs(log) + (if input.status.Partial? then 1 else 0)
      && FailedInputs(next) == FailedInputs(log) + (if input.status.Unavailable? then 1 else 0)
  {
    var next := Recorded(log, input);
    DiagnosedAfterRecording(log, input);
    KeptClasses(log.inputs);
    CountsGrow(log.inputs, input);
    assert next.inputs == log.inputs + [input];
    WithoutOne(DiagnosedOnly(log), Identity(input));
  }

  lemma WithoutOne(s: set<(ClientId, string)>, x: (ClientId, string))
    ensures |s - {x}| + (if x in s then 1 else 0) == |s|
  {
    if x in s {
      assert s == s - {x} + {x};
    } else {
      assert s == s - {x};
    }
  }

  // ----- Any way of building a log

  datatype History =
    | Nothing
    | Record(before: History, input: Input)
    | Diagnose(before: History, diagnostic: Diagnostic)
    | Merge(left: History, right: History)

  function LogOf(h: History): Log {
    match h
    case Nothing => Log([], [], 0)
    case Record(before, input) => Recorded(LogOf(before), input)
    case Diagnose(before, d) => Diagnosed(LogOf(before), d)
    case Merge(left, right) => Merged(LogOf(left), LogOf(right))
  }

  /** Every input that was recorded, clean or not. */
  function RecordedInputs(h: History): seq<Input> {
    match h
    case Nothing => []
    case Record(before, input) => RecordedInputs(before) + [input]
    case Diagnose(before, _) => RecordedInputs(before)
    case Merge(left, right) => RecordedInputs(left) + RecordedInputs(right)
  }

  function CleanCount(inputs: seq<Input>): nat {
    if |inputs| == 0 then 0
    else CleanCount(inputs[..|inputs| - 1]) + if inputs[|inputs| - 1].IsClean() then 1 else 0
  }

  lemma {:induction false} CleanCountConcat(a: seq<Input>, b: seq<Input>)
    ensures CleanCount(a + b) == CleanCount(a) + CleanCount(b)
  {
    if |b| == 0 {
      assert a + b == a;
    } else {
      CleanCountConcat(a, b[..|b| - 1]);
      assert (a + b)[..|a + b| - 1] == a + b[..|b| - 1];
    }
  }

  /** The log has examined every recorded input, and keeps exactly those that are not clean. */
  lemma {:induction false} LogOfHistory(h: History)
    ensures NoneClean(LogOf(h))
    ensures LogOf(h).examined == Sat(|RecordedInputs(h)|)
    ensures |LogOf(h).inputs| + CleanCount(RecordedInputs(h)) == |RecordedInputs(h)|
    ensures forall input :: input in LogOf(h).inputs <==> input in RecordedInputs(h) && !input.IsClean()
  {
    match h
    case Nothing =>
    case Record(before, input) =>
      LogOfHistory(before);
      CleanCountConcat(RecordedInputs(before), [input]);
      assert [input][..0] == [];
    case Diagnose(before, _) => LogOfHistory(before);
    case Merge(left, right) =>
      LogOfHistory(left);
      LogOfHistory(right);
      CleanCountConcat(RecordedInputs(left), RecordedInputs(right));
  }

  /**
   * However a log was built, its four classes add up to the number of recorded inputs exactly when
   * no more inputs are known from diagnostics alone than were recorded as clean.
   */
  lemma RecordsAddUp(h: History)
    requires |RecordedInputs(h)| <= U64_MAX && Known(LogOf(h)) <= U64_MAX
    ensures Classified(LogOf(h)) == |RecordedInputs(h)|
        <==> |DiagnosedOnly(LogOf(h))| <= CleanCount(RecordedInputs(h))
  {
    LogOfHistory(h);
    ClassesAddUp(LogOf(h));
  }

  /** Every input a diagnostic names was recorded. */
  ghost predicate DiagnosesRecorded(h: History) {
    forall d :: d in LogOf(h).diagnostics && d.client.Some? ==>
      exists input :: input in RecordedInputs(h) && Identity(input) == (d.client.value, d.path)
  }

  function CleanIdentities(inputs: seq<Input>): set<(ClientId, string)> {
    set input | input in inputs && input.IsClean() :: Identity(input)
  }

  lemma {:induction false} CleanIdentitiesCount(inputs: seq<Input>)
    ensures |CleanIdentities(inputs)| <= CleanCount(inputs)
  {
    if |inputs| > 0 {
      CleanIdentitiesCount(inputs[..|inputs| - 1]);
      OneIdentityMore(inputs);
    }
  }

  lemma OneIdentityMore(inputs: seq<Input>)
    requires |inputs| > 0
    ensures |CleanIdentities(inputs)|
         <= |CleanIdentities(inputs[..|inputs| - 1])| + if inputs[|inputs| - 1].IsClean() then 1 else 0
  {
    var front, last := inputs[..|inputs| - 1], inputs[|inputs| - 1];
    assert inputs == front + [last];
    assert CleanIdentities(inputs) == CleanIdentities(front) + if last.IsClean() then {Identity(last)} else {};
  }

  /** If diagnostics only name recorded inputs, every recorded input is in exactly one class. */
  lemma DiagnosedRecordsAddUp(h: History)
    requires |RecordedInputs(h)| <= U64_MAX && DiagnosesRecorded(h)
    ensures Classified(LogOf(h)) == |RecordedInputs(h)|
  {
    LogOfHistory(h);
    DiagnosedAreClean(h);
    CleanIdentitiesCount(RecordedInputs(h));
    SubsetSize(DiagnosedOnly(LogOf(h)), CleanIdentities(RecordedInputs(h)));
    RecordsAddUp(h);
  }

  lemma DiagnosedAreClean(h: History)
    requires DiagnosesRecorded(h)
    ensures DiagnosedOnly(LogOf(h)) <= CleanIdentities(RecordedInputs(h))
  {
    var log := LogOf(h);
    LogOfHistory(h);
    forall id | id in DiagnosedOnly(log) ensures id in CleanIdentities(RecordedInputs(h)) {
      DiagnosedIsNamed(log, id);
      var input :| input in RecordedInputs(h) && Identity(input) == id;
      ReportedMeans(log, id);
    }
  }

  lemma DiagnosedIsNamed(log: Log, id: (ClientId, string))
    requires id in DiagnosedOnly(log)
    ensures exists d :: d in log.diagnostics && d.client.Some? && (d.client.value, d.path) == id
    ensures id !in Reported(log)
  {
    var i :| 0 <= i < |log.diagnostics| && log.diagnostics[i].client.Some?
             && (log.diagnostics[i].client.value, log.diagnostics[i].path) == id && id !in Reported(log);
    assert log.diagnostics[i] in log.diagnostics;
  }
}
