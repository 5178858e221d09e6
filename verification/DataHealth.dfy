/** The mutable health log and its grouping, as the source updates them in place. */
module DataHealth {
  import opened Options
  import opened Ascending
  import opened InputHealth

  /** Per-reason rejection counts of one input. */
  class RejectionCounter {
    var counts: Rejections

    constructor ()
      ensures counts == map[]
    {
      counts := map[];
    }

    method RecordKey(key: string)
      modifies this
      ensures counts == AddReason(old(counts), key, 1)
    {
      var count := if key in counts then counts[key] else 0;
      counts := counts[key := SatAdd(count, 1)];
    }

    method Merge(other: Rejections)
      modifies this
      ensures counts == MergeRejections(old(counts), other)
    {
      var keys := Reasons(other);
      for i := 0 to |keys|
        invariant counts == MergeKeys(old(counts), other, keys[..i])
      {
        var target := if keys[i] in counts then counts[keys[i]] else 0;
        counts := counts[keys[i] := SatAdd(target, other[keys[i]])];
        assert keys[..i + 1][..i] == keys[..i];
      }
      assert keys[..|keys|] == keys;
    }
  }

  function AddReason(r: Rejections, key: string, n: nat): Rejections {
    r[key := SatAdd(if key in r then r[key] else 0, n)]
  }

  function MergeKeys(r: Rejections, other: Rejections, keys: seq<string>): Rejections
    requires forall k :: k in keys ==> k in other
  {
    if |keys| == 0 then r
    else AddReason(MergeKeys(r, other, keys[..|keys| - 1]), keys[|keys| - 1], other[keys[|keys| - 1]])
  }

  function MergeRejections(r: Rejections, other: Rejections): Rejections {
    MergeKeys(r, other, Reasons(other))
  }

  class HealthLog {
    var inputs: seq<Input>
    var diagnostics: seq<Diagnostic>
    var examined: nat

    constructor ()
      ensures Contents() == Log([], [], 0)
    {
      inputs, diagnostics, examined := [], [], 0;
    }

    ghost function Contents(): Log
      reads this
    {
      Log(inputs, diagnostics, examined)
    }

    /** Clean inputs are counted, not kept. */
    method Record(input: Input)
      modifies this
      ensures Contents() == Recorded(old(Contents()), input)
    {
      examined := SatAdd(examined, 1);
      if !input.IsClean() {
        inputs := inputs + [input];
      }
    }

    method Merge(other: Log)
      modifies this
      ensures Contents() == Merged(old(Contents()), other)
    {
      inputs := inputs + other.inputs;
      diagnostics := diagnostics + other.diagnostics;
      examined := SatAdd(examined, other.examined);
    }

    method RecordDiagnostic(client: Option<ClientId>, path: string, kind: DiagnosticKind)
      modifies this
      ensures Contents() == Diagnosed(old(Contents()), Diagnostic(client, path, kind))
    {
      diagnostics := diagnostics + [Diagnostic(client, path, kind)];
    }

    /** One entry per issue class, created on first use and counted up in place. */
    method Summarized() returns (s: Summary)
      ensures s == Summarize(Contents())
    {
      var grouped := GroupInputs(inputs);
      grouped := GroupDiagnostics(grouped, diagnostics, InputMarks(inputs));
      var log := Log(inputs, diagnostics, examined);
      s := Summary(CleanInputs(log), DegradedInputs(log), Listed(grouped));
    }
  }

  method GroupInputs(inputs: seq<Input>) returns (grouped: Grouped)
    ensures grouped == AddMarks(map[], InputMarks(inputs))
  {
    grouped := map[];
    for i := 0 to |inputs|
      invariant grouped == AddMarks(map[], InputMarks(inputs[..i]))
    {
      grouped := GroupInput(grouped, inputs[i], InputMarks(inputs[..i]));
      assert inputs[..i + 1][..i] == inputs[..i];
    }
    assert inputs[..|inputs|] == inputs;
  }

  method GroupDiagnostics(before: Grouped, ds: seq<Diagnostic>, ghost marks: seq<Mark>) returns (grouped: Grouped)
    requires before == AddMarks(map[], marks)
    ensures grouped == AddMarks(map[], marks + DiagnosticMarks(ds))
  {
    grouped := before;
    ghost var all := marks;
    for d := 0 to |ds|
      invariant all == marks + DiagnosticMarks(ds[..d])
      invariant grouped == AddMarks(map[], all)
    {
      var m := Mark(Key(ds[d].client, ds[d].kind.Issue()), 0);
      assert DiagnosticMarks(ds[..d + 1]) == DiagnosticMarks(ds[..d]) + [m];
      OneMoreMark(all, m);
      grouped := AddMark(grouped, m);
      all := all + [m];
    }
    assert ds[..|ds|] == ds;
  }

  lemma OneMoreMark(marks: seq<Mark>, m: Mark)
    ensures AddMarks(map[], marks + [m]) == AddMark(AddMarks(map[], marks), m)
  {
    assert (marks + [m])[..|marks|] == marks;
  }

  lemma OneMoreReason(before: seq<Mark>, client: ClientId, r: Rejections, keys: seq<string>, i: nat)
    requires i < |keys| && forall k :: k in keys ==> k in r
    ensures before + RejectionMarks(client, r, keys[..i + 1])
         == before + RejectionMarks(client, r, keys[..i])
            + if r[keys[i]] > 0 then [Mark(Key(Some(client), RecordRejection(keys[i])), r[keys[i]])] else []
  {
    assert keys[..i + 1][..i] == keys[..i];
  }

  method GroupRejections(grouped: Grouped, input: Input, ghost before: seq<Mark>) returns (g: Grouped)
    requires grouped == AddMarks(map[], before)
    ensures g == AddMarks(map[], before + RejectionMarks(input.client, input.rejections, Reasons(input.rejections)))
  {
    g := grouped;
    var keys := Reasons(input.rejections);
    ghost var marks := before;
    assert before + [] == before;
    for i := 0 to |keys|
      invariant marks == before + RejectionMarks(input.client, input.rejections, keys[..i])
      invariant g == AddMarks(map[], marks)
    {
      OneMoreReason(before, input.client, input.rejections, keys, i);
      var count := input.rejections[keys[i]];
      if count > 0 {
        var m := Mark(Key(Some(input.client), RecordRejection(keys[i])), count);
        OneMoreMark(marks, m);
        g := AddMark(g, m);
        marks := marks + [m];
      }
    }
    assert keys[..|keys|] == keys;
  }

  /** The rejections of one input by reason, then its own state. */
  method GroupInput(grouped: Grouped, input: Input, ghost before: seq<Mark>) returns (g: Grouped)
    requires grouped == AddMarks(map[], before)
    ensures g == AddMarks(map[], before + MarksOf(input))
  {
    g := GroupRejections(grouped, input, before);
    ghost var rejected := RejectionMarks(input.client, input.rejections, Reasons(input.rejections));
    assert before + MarksOf(input) == (before + rejected) + StatusMarks(input);
    if input.status.Complete? {
      assert (before + rejected) + [] == before + rejected;
    } else {
      var m := Mark(Key(Some(input.client), if input.status.Partial? then PartialInput else InputUnavailable), 0);
      OneMoreMark(before + rejected, m);
      g := AddMark(g, m);
    }
  }

  // ----- Merged counters

  lemma {:induction false} MergeKeysAt(r: Rejections, other: Rejections, keys: seq<string>, k: string)
    requires forall x :: x in keys ==> x in other
    requires forall i, j :: 0 <= i < j < |keys| ==> keys[i] != keys[j]
    ensures k in MergeKeys(r, other, keys) <==> k in r || k in keys
    ensures k in keys ==> MergeKeys(r, other, keys)[k] == SatAdd(if k in r then r[k] else 0, other[k])
    ensures k in r && k !in keys ==> MergeKeys(r, other, keys)[k] == r[k]
  {
    var n := |keys|;
    if n > 0 {
      MergeKeysAt(r, other, keys[..n - 1], k);
      MergeKeysAt(r, other, keys[..n - 1], keys[n - 1]);
      assert keys == keys[..n - 1] + [keys[n - 1]];
      assert keys[n - 1] !in keys[..n - 1];
    }
  }

  /** Merging adds the two counts of every reason, saturating, and drops none. */
  lemma MergedCounts(r: Rejections, other: Rejections, k: string)
    ensures k in MergeRejections(r, other) <==> k in r || k in other
    ensures k in other ==> MergeRejections(r, other)[k] == SatAdd(if k in r then r[k] else 0, other[k])
    ensures k in r && k !in other ==> MergeRejections(r, other)[k] == r[k]
  {
    StringCodeInjective();
    InOrderIsDistinct(other.Keys, StringCode);
    MergeKeysAt(r, other, Reasons(other), k);
  }
}
