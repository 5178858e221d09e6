/** Health logs of parallel scans may be merged in any order and grouping. */
module HealthMerging {
  import opened Words
  import opened Sums
  import opened InputHealth

  /** One way of merging some logs. */
  datatype Merging = Leaf(log: Log) | Merge(left: Merging, right: Merging)

  function Result(t: Merging): Log {
    match t
    case Leaf(log) => log
    case Merge(l, r) => Merged(Result(l), Result(r))
  }

  function Leaves(t: Merging): (logs: seq<Log>)
    ensures |logs| > 0
  {
    match t
    case Leaf(log) => [log]
    case Merge(l, r) => Leaves(l) + Leaves(r)
  }

  // ----- Quantities that add up over merged logs

  datatype Measure = KeyCount(k: Key) | KeyAmount(k: Key) | InputCount | RejectedCount | Examined

  function Measured(log: Log, m: Measure): nat {
    match m
    case KeyCount(k) => At(Marks(log), k, One)
    case KeyAmount(k) => At(Marks(log), k, Amount)
    case InputCount => |log.inputs|
    case RejectedCount => CountRejected(log.inputs)
    case Examined => log.examined
  }

  function SumOver(logs: seq<Log>, m: Measure): nat {
    if |logs| == 0 then 0 else SumOver(logs[..|logs| - 1], m) + Measured(logs[|logs| - 1], m)
  }

  lemma {:induction false} AtConcat(a: seq<Mark>, b: seq<Mark>, k: Key, f: Weight)
    ensures At(a + b, k, f) == At(a, k, f) + At(b, k, f)
  {
    if |b| == 0 {
      assert a + b == a;
    } else {
      AtConcat(a, b[..|b| - 1], k, f);
      assert (a + b)[..|a + b| - 1] == a + b[..|b| - 1];
    }
  }

  lemma MarksOfLast(inputs: seq<Input>, last: Input)
    ensures InputMarks(inputs + [last]) == InputMarks(inputs) + MarksOf(last)
  {
    assert (inputs + [last])[..|inputs|] == inputs;
  }

  lemma {:induction false} AtInputs(a: seq<Input>, b: seq<Input>, k: Key, f: Weight)
    ensures At(InputMarks(a + b), k, f) == At(InputMarks(a), k, f) + At(InputMarks(b), k, f)
  {
    if |b| == 0 {
      assert a + b == a;
    } else {
      var rest, last := b[..|b| - 1], b[|b| - 1];
      assert b == rest + [last] && a + b == (a + rest) + [last];
      AtInputs(a, rest, k, f);
      MarksOfLast(rest, last);
      MarksOfLast(a + rest, last);
      AtConcat(InputMarks(rest), MarksOf(last), k, f);
      AtConcat(InputMarks(a + rest), MarksOf(last), k, f);
    }
  }

  lemma {:induction false} RejectedConcat(a: seq<Input>, b: seq<Input>)
    ensures CountRejected(a + b) == CountRejected(a) + CountRejected(b)
  {
    if |b| == 0 {
      assert a + b == a;
    } else {
      var front, last := b[..|b| - 1], b[|b| - 1];
      RejectedConcat(a, front);
      RejectedOneMore(front, last);
      RejectedOneMore(a + front, last);
      SplitLast(a, b);
    }
  }

  lemma RejectedOneMore(inputs: seq<Input>, last: Input)
    ensures CountRejected(inputs + [last]) == CountRejected(inputs) + CountRejected([last])
  {
    assert (inputs + [last])[..|inputs|] == inputs;
    assert [last][..0] == [];
  }

  lemma MarksOfMerged(a: Log, b: Log, k: Key, f: Weight)
    ensures At(Marks(Merged(a, b)), k, f) == At(Marks(a), k, f) + At(Marks(b), k, f)
  {
    var m := Merged(a, b);
    assert DiagnosticMarks(m.diagnostics) == DiagnosticMarks(a.diagnostics) + DiagnosticMarks(b.diagnostics);
    AtInputs(a.inputs, b.inputs, k, f);
    AtConcat(DiagnosticMarks(a.diagnostics), DiagnosticMarks(b.diagnostics), k, f);
    AtConcat(InputMarks(m.inputs), DiagnosticMarks(m.diagnostics), k, f);
    AtConcat(InputMarks(a.inputs), DiagnosticMarks(a.diagnostics), k, f);
    AtConcat(InputMarks(b.inputs), DiagnosticMarks(b.diagnostics), k, f);
  }

  lemma MeasuredMerged(a: Log, b: Log, m: Measure)
    requires !m.Examined?
    ensures Measured(Merged(a, b), m) == Measured(a, m) + Measured(b, m)
  {
    match m
    case KeyCount(k) => MarksOfMerged(a, b, k, One);
    case KeyAmount(k) => MarksOfMerged(a, b, k, Amount);
    case InputCount =>
    case RejectedCount => RejectedConcat(a.inputs, b.inputs);
  }

  lemma {:induction false} SumOverConcat(a: seq<Log>, b: seq<Log>, m: Measure)
    ensures SumOver(a + b, m) == SumOver(a, m) + SumOver(b, m)
  {
    if |b| == 0 {
      assert a + b == a;
    } else {
      var front, last := b[..|b| - 1], b[|b| - 1];
      SumOverConcat(a, front, m);
      SumOverOneMore(front, last, m);
      SumOverOneMore(a + front, last, m);
      SplitLast(a, b);
    }
  }

  lemma SumOverOneMore(logs: seq<Log>, last: Log, m: Measure)
    ensures SumOver(logs + [last], m) == SumOver(logs, m) + Measured(last, m)
  {
    assert (logs + [last])[..|logs|] == logs;
  }

  lemma {:induction false} MeasuredResult(t: Merging, m: Measure)
    requires !m.Examined?
    ensures Measured(Result(t), m) == SumOver(Leaves(t), m)
  {
    match t
    case Leaf(log) => assert [log][..0] == [];
    case Merge(l, r) =>
      MeasuredResult(l, m);
      MeasuredResult(r, m);
      MeasuredMerged(Result(l), Result(r), m);
      SumOverConcat(Leaves(l), Leaves(r), m);
  }

  lemma SumOverInsert(front: seq<Log>, x: Log, back: seq<Log>, m: Measure)
    ensures SumOver(front + [x] + back, m) == SumOver(front + back, m) + Measured(x, m)
  {
    SumOverConcat(front + [x], back, m);
    SumOverConcat(front, [x], m);
    SumOverConcat(front, back, m);
    assert [x][..0] == [];
  }

  /** Any element of a sequence can be taken out of any permutation of it. */
  lemma TakeOut(a: seq<Log>, b: seq<Log>) returns (front: seq<Log>, back: seq<Log>)
    requires |a| > 0 && multiset(a) == multiset(b)
    ensures b == front + [a[|a| - 1]] + back
    ensures multiset(a[..|a| - 1]) == multiset(front + back)
  {
    var last := a[|a| - 1];
    assert a == a[..|a| - 1] + [last];
    assert last in multiset(b);
    var p :| 0 <= p < |b| && b[p] == last;
    front, back := b[..p], b[p + 1..];
    assert b == front + [last] + back;
    assert multiset(a) == multiset(a[..|a| - 1]) + multiset{last};
    assert multiset(b) == multiset(front) + multiset{last} + multiset(back);
    assert multiset(front + back) == multiset(front) + multiset(back) == multiset(a) - multiset{last};
  }

  lemma {:induction false} SumOverPermutation(a: seq<Log>, b: seq<Log>, m: Measure)
    requires multiset(a) == multiset(b)
    ensures SumOver(a, m) == SumOver(b, m)
    decreases |a|
  {
    if |a| == 0 {
      assert |multiset(b)| == 0;
    } else {
      var front, back := TakeOut(a, b);
      SumOverPermutation(a[..|a| - 1], front + back, m);
      SumOverInsert(front, a[|a| - 1], back, m);
    }
  }

  // ----- Examined inputs

  ghost predicate WordSized(logs: seq<Log>) {
    forall i :: 0 <= i < |logs| ==> logs[i].examined <= U64_MAX
  }

  lemma {:induction false} ExaminedResult(t: Merging)
    requires WordSized(Leaves(t))
    ensures Result(t).examined == Sat(SumOver(Leaves(t), Examined))
  {
    match t
    case Leaf(log) =>
      assert Leaves(t)[0] == log;
      assert [log][..0] == [];
    case Merge(l, r) =>
      assert forall i :: 0 <= i < |Leaves(l)| ==> Leaves(t)[i] == Leaves(l)[i];
      assert forall i :: 0 <= i < |Leaves(r)| ==> Leaves(t)[|Leaves(l)| + i] == Leaves(r)[i];
      ExaminedResult(l);
      ExaminedResult(r);
      SumOverConcat(Leaves(l), Leaves(r), Examined);
  }

  // ----- Identities

  function DiagnosedIdentity(d: Diagnostic): (ClientId, string)
    requires d.client.Some?
  {
    (d.client.value, d.path)
  }

  ghost predicate IsReported(log: Log, id: (ClientId, string)) {
    exists i :: 0 <= i < |log.inputs| && (log.inputs[i].client, log.inputs[i].path) == id
  }

  ghost predicate IsDiagnosed(log: Log, id: (ClientId, string)) {
    exists i :: 0 <= i < |log.diagnostics| && log.diagnostics[i].client.Some?
                && DiagnosedIdentity(log.diagnostics[i]) == id
  }

  lemma DiagnosedOnlyMeans(log: Log, id: (ClientId, string))
    ensures id in DiagnosedOnly(log) <==> IsDiagnosed(log, id) && !IsReported(log, id)
  {
    assert id in Reported(log) <==> IsReported(log, id);
    if IsDiagnosed(log, id) && !IsReported(log, id) {
      var i :| 0 <= i < |log.diagnostics| && log.diagnostics[i].client.Some?
               && DiagnosedIdentity(log.diagnostics[i]) == id;
      assert (log.diagnostics[i].client.value, log.diagnostics[i].path) !in Reported(log);
    }
    if id in DiagnosedOnly(log) {
      var i :| 0 <= i < |log.diagnostics| && log.diagnostics[i].client.Some?
               && (log.diagnostics[i].client.value, log.diagnostics[i].path) !in Reported(log)
               && (log.diagnostics[i].client.value, log.diagnostics[i].path) == id;
      assert DiagnosedIdentity(log.diagnostics[i]) == id;
    }
  }

  lemma MergedIdentities(a: Log, b: Log, id: (ClientId, string))
    ensures IsReported(Merged(a, b), id) <==> IsReported(a, id) || IsReported(b, id)
    ensures IsDiagnosed(Merged(a, b), id) <==> IsDiagnosed(a, id) || IsDiagnosed(b, id)
  {
    var m := Merged(a, b);
    assert forall i :: 0 <= i < |a.inputs| ==> m.inputs[i] == a.inputs[i];
    assert forall i :: 0 <= i < |b.inputs| ==> m.inputs[|a.inputs| + i] == b.inputs[i];
    assert forall i :: 0 <= i < |a.diagnostics| ==> m.diagnostics[i] == a.diagnostics[i];
    assert forall i :: 0 <= i < |b.diagnostics| ==> m.diagnostics[|a.diagnostics| + i] == b.diagnostics[i];
  }

  lemma {:induction false} ResultIdentities(t: Merging, id: (ClientId, string))
    ensures IsReported(Result(t), id) <==> exists log :: log in Leaves(t) && IsReported(log, id)
    ensures IsDiagnosed(Result(t), id) <==> exists log :: log in Leaves(t) && IsDiagnosed(log, id)
  {
    match t
    case Leaf(log) => assert log in Leaves(t);
    case Merge(l, r) =>
      ResultIdentities(l, id);
      ResultIdentities(r, id);
      MergedIdentities(Result(l), Result(r), id);
      assert forall log :: log in Leaves(t) <==> log in Leaves(l) || log in Leaves(r);
  }

  lemma SameIdentities(a: Merging, b: Merging)
    requires multiset(Leaves(a)) == multiset(Leaves(b))
    ensures DiagnosedOnly(Result(a)) == DiagnosedOnly(Result(b))
  {
    forall log
      ensures log in Leaves(a) <==> log in Leaves(b)
    {
      assert log in Leaves(a) <==> log in multiset(Leaves(a));
      assert log in Leaves(b) <==> log in multiset(Leaves(b));
    }
    forall id
      ensures id in DiagnosedOnly(Result(a)) <==> id in DiagnosedOnly(Result(b))
    {
      ResultIdentities(a, id);
      ResultIdentities(b, id);
      DiagnosedOnlyMeans(Result(a), id);
      DiagnosedOnlyMeans(Result(b), id);
    }
  }

  // ----- The main result

  lemma SameGroups(x: Log, y: Log)
    requires forall k :: At(Marks(x), k, One) == At(Marks(y), k, One)
    requires forall k :: At(Marks(x), k, Amount) == At(Marks(y), k, Amount)
    ensures AddMarks(map[], Marks(x)) == AddMarks(map[], Marks(y))
  {
    GroupedByKey(Marks(x));
    GroupedByKey(Marks(y));
  }

  lemma SameMeasure(a: Merging, b: Merging, m: Measure)
    requires multiset(Leaves(a)) == multiset(Leaves(b)) && !m.Examined?
    ensures Measured(Result(a), m) == Measured(Result(b), m)
  {
    MeasuredResult(a, m);
    MeasuredResult(b, m);
    SumOverPermutation(Leaves(a), Leaves(b), m);
  }

  lemma SameGrouping(a: Merging, b: Merging)
    requires multiset(Leaves(a)) == multiset(Leaves(b))
    ensures AddMarks(map[], Marks(Result(a))) == AddMarks(map[], Marks(Result(b)))
  {
    forall k
      ensures At(Marks(Result(a)), k, One) == At(Marks(Result(b)), k, One)
      ensures At(Marks(Result(a)), k, Amount) == At(Marks(Result(b)), k, Amount)
    {
      SameMeasure(a, b, KeyCount(k));
      SameMeasure(a, b, KeyAmount(k));
    }
    SameGroups(Result(a), Result(b));
  }

  lemma SameInputCounts(a: Merging, b: Merging)
    requires multiset(Leaves(a)) == multiset(Leaves(b))
    requires WordSized(Leaves(a)) && WordSized(Leaves(b))
    ensures CleanInputs(Result(a)) == CleanInputs(Result(b))
    ensures DegradedInputs(Result(a)) == DegradedInputs(Result(b))
  {
    SameMeasure(a, b, InputCount);
    SameMeasure(a, b, RejectedCount);
    SameIdentities(a, b);
    ExaminedResult(a);
    ExaminedResult(b);
    SumOverPermutation(Leaves(a), Leaves(b), Examined);
  }

  /** However the same logs are merged, in whatever order and grouping, the summary is the same. */
  lemma MergeOrderIsIrrelevant(a: Merging, b: Merging)
    requires multiset(Leaves(a)) == multiset(Leaves(b))
    requires WordSized(Leaves(a)) && WordSized(Leaves(b))
    ensures Summarize(Result(a)) == Summarize(Result(b))
  {
    SameGrouping(a, b);
    SameInputCounts(a, b);
  }
}
