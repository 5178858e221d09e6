/** What makes two generations fail alike, told on their issues, and what a save makes of the difference. */
module RetryFailures {
  import opened Options
  import opened Words
  import opened Sums
  import opened CacheHeader
  import opened InputHealth
  import opened GenerationCache
  import opened RetryStreak
  import opened RetryDelays

  // ----- The issues a signature is made of

  /** A partial or unavailable input: its client, its kind by name, and its two counts. */
  predicate Carries(issue: Issue, f: Failure) {
    && ((issue.kind == PartialInput && f.issue == "partial-input")
        || (issue.kind == InputUnavailable && f.issue == "input-unavailable"))
    && issue.client == f.client && issue.affected == f.affected
    && f.rejected == match issue.rejected case Some(n) => n case None => 0
  }

  predicate IsRetryable(issue: Issue) {
    issue.kind == PartialInput || issue.kind == InputUnavailable
  }

  function Carriers(issues: seq<Issue>, f: Failure): set<nat> {
    set i: nat | i < |issues| && Carries(issues[i], f)
  }

  /** The retryable issues agree, with their multiplicity, in client, kind and counts; order plays no part. */
  ghost predicate FailAlike(a: seq<Issue>, b: seq<Issue>) {
    forall f :: |Carriers(a, f)| == |Carriers(b, f)|
  }

  lemma CarriersGrow(front: seq<Issue>, last: Issue, f: Failure)
    ensures |Carriers(front + [last], f)| == |Carriers(front, f)| + if Carries(last, f) then 1 else 0
  {
    OneMoreIndex(Carriers(front, f), Carriers(front + [last], f), |front|, Carries(last, f));
  }

  lemma FailuresGrow(front: seq<Issue>, last: Issue, f: Failure)
    ensures Failures(front + [last])[f] == Failures(front)[f] + if Carries(last, f) then 1 else 0
  {
    assert (front + [last])[..|front|] == front;
  }

  /** Every failure enters the signature exactly as often as issues carry it. */
  lemma {:induction false} FailuresAreCarried(issues: seq<Issue>, f: Failure)
    ensures Failures(issues)[f] == |Carriers(issues, f)|
  {
    if |issues| == 0 {
      assert Carriers(issues, f) == {};
    } else {
      var front, last := issues[..|issues| - 1], issues[|issues| - 1];
      FailuresAreCarried(front, f);
      FailuresGrow(front, last, f);
      CarriersGrow(front, last, f);
      assert issues == front + [last];
    }
  }

  lemma AlikeIsSameFailures(a: seq<Issue>, b: seq<Issue>)
    ensures FailAlike(a, b) <==> Failures(a) == Failures(b)
  {
    forall f ensures Failures(a)[f] == |Carriers(a, f)| && Failures(b)[f] == |Carriers(b, f)| {
      FailuresAreCarried(a, f);
      FailuresAreCarried(b, f);
    }
    if FailAlike(a, b) {
      forall f ensures Failures(a)[f] == Failures(b)[f] {
        assert |Carriers(a, f)| == |Carriers(b, f)|;
      }
    }
  }

  /** The digest tells these two lists of failures apart if they differ. */
  ghost predicate NoCollision(env: Env, a: seq<Issue>, b: seq<Issue>) {
    env.signature(Failures(a)) == env.signature(Failures(b)) ==> Failures(a) == Failures(b)
  }

  /** A generation has metadata if it has a retryable issue; its clients are those that such issues name. */
  lemma MetadataIsExact(env: Env, g: Generation)
    ensures MetadataOf(env, g).Some? <==> exists issue :: issue in g.health.issues && IsRetryable(issue)
    ensures MetadataOf(env, g).Some? ==> forall c ::
              c in MetadataOf(env, g).value.clients
              <==> exists issue :: issue in g.health.issues && IsRetryable(issue) && issue.client == Some(c)
  {
    var issues := g.health.issues;
    if issue :| issue in issues && IsRetryable(issue) {
      var i :| 0 <= i < |issues| && issues[i] == issue;
      assert issues[i].kind.IsInputRetry();
    }
    if MetadataOf(env, g).Some? {
      forall c
        ensures c in MetadataOf(env, g).value.clients
            <==> exists issue :: issue in issues && IsRetryable(issue) && issue.client == Some(c)
      {
        ClientIsAffected(issues, c);
      }
    }
  }

  lemma ClientIsAffected(issues: seq<Issue>, c: ClientId)
    ensures c in AffectedClients(issues)
        <==> exists issue :: issue in issues && IsRetryable(issue) && issue.client == Some(c)
  {
    if issue :| issue in issues && IsRetryable(issue) && issue.client == Some(c) {
      var i :| 0 <= i < |issues| && issues[i] == issue;
      assert issues[i].kind.IsInputRetry() && issues[i].client.Some?;
    }
    if c in AffectedClients(issues) {
      var i :| 0 <= i < |issues| && issues[i].kind.IsInputRetry() && issues[i].client.Some?
               && issues[i].client.value == c;
      assert issues[i] in issues && IsRetryable(issues[i]);
    }
  }

  /** Generations that fail alike have one signature; without a collision no others do. */
  lemma SignaturesAgree(env: Env, a: Generation, b: Generation)
    requires MetadataOf(env, a).Some? && MetadataOf(env, b).Some?
    ensures FailAlike(a.health.issues, b.health.issues) ==>
              MetadataOf(env, a).value.signature == MetadataOf(env, b).value.signature
    ensures NoCollision(env, a.health.issues, b.health.issues) ==>
              (MetadataOf(env, a).value.signature == MetadataOf(env, b).value.signature
               <==> FailAlike(a.health.issues, b.health.issues))
  {
    AlikeIsSameFailures(a.health.issues, b.health.issues);
  }

  // ----- What a save accepts

  /** A save succeeds exactly for valid health and sizes if some retryable issue names a client or there is none. */
  lemma SaveSucceeds(env: Env, file: Option<Bytes>, g: Generation, now: nat)
    ensures var issues := g.health.issues;
      Save(env, file, g, now).Ok? <==>
        && Validate(g.health).None? && env.coherent(g)
        && ((exists issue :: issue in issues && IsRetryable(issue)) ==>
              exists issue :: issue in issues && IsRetryable(issue) && issue.client.Some?)
        && |env.plain(GenerationToWire(g))| <= 268_435_456
        && |env.pack(env.plain(GenerationToWire(g)))| <= 268_435_456
  {
    MetadataIsExact(env, g);
    if Validate(g.health).None? {
      RetryTestsAgree(g.health);
      SomeClient(env, g);
    }
  }

  lemma SomeClient(env: Env, g: Generation)
    ensures MetadataOf(env, g).Some? ==>
              (MetadataOf(env, g).value.clients != {}
               <==> exists issue :: issue in g.health.issues && IsRetryable(issue) && issue.client.Some?)
  {
    MetadataIsExact(env, g);
    if MetadataOf(env, g).Some? {
      if c :| c in MetadataOf(env, g).value.clients {
        ClientIsAffected(g.health.issues, c);
      }
      if issue :| issue in g.health.issues && IsRetryable(issue) && issue.client.Some? {
        ClientIsAffected(g.health.issues, issue.client.value);
      }
    }
  }

  // ----- What the next save takes over

  /** A header that does not contradict itself, and as many bytes behind it as it says. */
  ghost predicate IsFileOf(env: Env, file: Bytes, h: Header, body: Bytes) {
    h.Fits() && h.RetryMetadataValid() && |body| == h.bodyLen && file == Encode(h, env.hash) + body
  }

  lemma FileIsRead(env: Env, file: Bytes, h: Header, body: Bytes)
    requires IsFileOf(env, file, h, body)
    ensures ReadPrevious(env, Some(file)) == PreviousOf(h)
  {
    EncodeThenDecode(h, env.hash, []);
    assert file[..HEADER_LEN] == Encode(h, env.hash) + [];
  }

  lemma ReadIsFile(env: Env, b: Bytes) returns (h: Header)
    requires ReadPrevious(env, Some(b)).Some?
    ensures |b| >= HEADER_LEN && IsFileOf(env, b, h, b[HEADER_LEN..])
    ensures h.signature != ZERO && ReadPrevious(env, Some(b)) == Some(Previous(h.signature, h.attempt))
  {
    var front := b[..HEADER_LEN];
    DecodeThenEncode(front, env.hash);
    h := Decode(front, env.hash).value;
    assert front[..HEADER_LEN] == front;
    assert b == front + b[HEADER_LEN..];
  }

  /** The file has a header with this schedule. */
  ghost predicate Schedules(env: Env, file: Bytes, p: Previous) {
    exists h, body ::
      IsFileOf(env, file, h, body) && h.signature != ZERO && p == Previous(h.signature, h.attempt)
  }

  /** A schedule is taken over exactly from a file of a header with a signature, and then as it stands there. */
  lemma PreviousIsExact(env: Env, file: Option<Bytes>, p: Previous)
    ensures ReadPrevious(env, file) == Some(p) <==> file.Some? && Schedules(env, file.value, p)
  {
    if file.Some? && Schedules(env, file.value, p) {
      var h, body :| IsFileOf(env, file.value, h, body) && h.signature != ZERO && p == Previous(h.signature, h.attempt);
      FileIsRead(env, file.value, h, body);
    }
    if ReadPrevious(env, file) == Some(p) {
      var h := ReadIsFile(env, file.value);
    }
  }

  // ----- The attempt after a save

  /** The delay: five minutes at first, doubled with every attempt, never above six hours. */
  lemma DelayDoubles(attempt: nat)
    requires attempt >= 1
    ensures Delay(1) == 300_000
    ensures Delay(attempt + 1) == Min(2 * Delay(attempt), 21_600_000)
  {
    assert Pow2(0) == 1;
    if attempt < 8 {
      var x := Pow2(attempt - 1);
      assert Pow2(attempt) == 2 * x;
      Pow2Grows(attempt - 1, 7);
      SevenDoublings();
      assert x <= 128;
    } else {
      DelayGrows(attempt, attempt + 1);
    }
  }

  /** The schedule belongs to the signature of the generation's own issues. */
  lemma ComputedSignature(env: Env, file: Option<Bytes>, g: Generation, now: nat, r: RetryBackoff)
    requires Computes(env, file, g, now, r)
    ensures MetadataOf(env, g).Some? && r.signature == MetadataOf(env, g).value.signature
    ensures r.clients == MetadataOf(env, g).value.clients
    ensures r.attempt == NextAttempt(ReadPrevious(env, file), r.signature) && r.notBefore == Sat(now + Delay(r.attempt))
  {
  }

  /**
   * The first save of failing inputs behind another one: if its retryable issues are those of the published
   * save before it, it is one attempt later; if they differ in anything, it starts at one, due in five minutes.
   */
  lemma DifferentFailuresRestart(
      env: Env, file: Option<Bytes>, initial: Option<Streak>, before: seq<Event>, first: Event,
      between: seq<Event>, g: Generation, now: nat, earlier: RetryBackoff, later: RetryBackoff)
    requires Faithful(env) && Begins(env, file, initial) && now <= U64_MAX
    requires Clocked(before) && Clocked(before + [first] + between)
    requires first.SaveAt? && !first.ending.FailedBeforeRename?
    requires Computes(env, Seen(FileAfter(env, file, before), first.headerRead), first.g, first.now, earlier)
    requires Computes(env, FileAfter(env, file, before + [first] + between), g, now, later)
    requires AllStayIn(env, between, earlier.signature) && PublishedSaves(env, between) == 0
    requires NoCollision(env, first.g.health.issues, g.health.issues)
    ensures later.attempt == if FailAlike(first.g.health.issues, g.health.issues) then Min(earlier.attempt + 1, U32_MAX)
                             else 1
    ensures !FailAlike(first.g.health.issues, g.health.issues) ==> later.notBefore == Sat(now + 300_000)
  {
    ComputedSignature(env, Seen(FileAfter(env, file, before), first.headerRead), first.g, first.now, earlier);
    ComputedSignature(env, FileAfter(env, file, before + [first] + between), g, now, later);
    SignaturesAgree(env, first.g, g);
    DelayDoubles(1);
    if FailAlike(first.g.health.issues, g.health.issues) {
      DelaysNeverShrink(env, file, initial, before, first, between, 0, g, now, earlier, later);
    } else {
      var length, longer := GrownStreak(env, file, initial, before, first, between, 0, earlier);
      ComputedElsewhere(env, file, initial, before + [first] + between, g, now, later, earlier.signature, longer);
    }
  }

  lemma ComputedElsewhere(
      env: Env, file: Option<Bytes>, initial: Option<Streak>, before: seq<Event>,
      g: Generation, now: nat, r: RetryBackoff, other: Digest, length: nat)
    requires Faithful(env) && Begins(env, file, initial) && Clocked(before) && now <= U64_MAX
    requires Computes(env, FileAfter(env, file, before), g, now, r)
    requires StreakAfter(env, initial, before) == Some(Streak(other, length)) && other != r.signature
    ensures r.attempt == 1
  {
    ScheduledDelay(env, file, initial, before, g, now, true, Returned);
  }
}
