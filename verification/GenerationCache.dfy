/** Saving one generation with its retry schedule, and deciding what a loaded one is good for. */
module GenerationCache {
  import opened Options
  import opened Words
  import opened Sums
  import opened CacheHeader
  import opened InputHealth
  import opened HealthWire

  const MAX_BODY: nat := 256 * 1024 * 1024
  const STALE_THRESHOLD_MS: nat := 5 * 60 * 1000
  const RETRY_BASE_DELAY_MS: nat := 5 * 60 * 1000
  const RETRY_MAX_DELAY_MS: nat := 6 * 60 * 60 * 1000

  /** A generation: the identity of its acquisition, its health, and everything else as bytes. */
  datatype Generation = Generation(config: Bytes, health: Summary, rest: Bytes)

  datatype WireGeneration = WireGeneration(config: Bytes, health: WireSummary, rest: Bytes)

  /** One retryable failure, as it enters the failure signature. */
  datatype Failure = Failure(client: Option<ClientId>, issue: string, affected: nat, rejected: nat)

  /**
   * What lies outside this model: the hash, the serializer, the compressor, the remaining
   * checks on a generation, and the digest of a sorted list of failures (which depends on
   * the failures only as a multiset).
   */
  datatype Env = Env(
    hash: Hash,
    plain: WireGeneration -> Bytes,
    unplain: Bytes -> Option<WireGeneration>,
    pack: Bytes -> Bytes,
    unpack: Bytes -> Option<Bytes>,
    coherent: Generation -> bool,
    signature: multiset<Failure> -> Digest)

  /** Serializer and compressor are undone by their inverses and never produce nothing; no signature is all zero. */
  ghost predicate Faithful(env: Env) {
    && (forall w :: env.unplain(env.plain(w)) == Some(w) && |env.plain(w)| > 0)
    && (forall b :: env.unpack(env.pack(b)) == Some(b) && |env.pack(b)| > 0)
    && (forall f :: env.signature(f) != ZERO)
  }

  function GenerationToWire(g: Generation): WireGeneration {
    WireGeneration(g.config, ToWire(g.health), g.rest)
  }

  function GenerationFromWire(w: WireGeneration): Option<Generation> {
    match FromWire(w.health)
    case Ok(health) => Some(Generation(w.config, health, w.rest))
    case Err(_) => None
  }

  predicate IsValid(env: Env, g: Generation) {
    Validate(g.health).None? && env.coherent(g)
  }

  // ----- Failures

  function Failures(issues: seq<Issue>): multiset<Failure> {
    if |issues| == 0 then multiset{}
    else
      var last := issues[|issues| - 1];
      Failures(issues[..|issues| - 1])
      + if last.kind.IsInputRetry()
        then multiset{Failure(last.client, last.kind.AsStr(), last.affected,
                              if last.rejected.Some? then last.rejected.value else 0)}
        else multiset{}
  }

  function AffectedClients(issues: seq<Issue>): set<ClientId> {
    set i | 0 <= i < |issues| && issues[i].kind.IsInputRetry() && issues[i].client.Some? :: issues[i].client.value
  }

  datatype FailureMetadata = FailureMetadata(clients: set<ClientId>, signature: Digest)

  function MetadataOf(env: Env, g: Generation): Option<FailureMetadata> {
    if exists i :: 0 <= i < |g.health.issues| && g.health.issues[i].kind.IsInputRetry()
    then Some(FailureMetadata(AffectedClients(g.health.issues), env.signature(Failures(g.health.issues))))
    else None
  }

  /** On valid health, retryable counters and retryable issues say the same. */
  lemma RetryTestsAgree(s: Summary)
    requires Validate(s).None?
    ensures RequiresInputRetry(s) <==> exists i :: 0 <= i < |s.issues| && s.issues[i].kind.IsInputRetry()
  {
    ValidateIssuesIsSound(s.issues, {});
    SelectedIsPositive(s.issues, PartialInput);
    SelectedIsPositive(s.issues, InputUnavailable);
    CheckedOrMax(AffectedOf(s.issues, Only(PartialInput)));
    CheckedOrMax(AffectedOf(s.issues, Only(InputUnavailable)));
  }

  lemma {:induction false} SelectedIsPositive(issues: seq<Issue>, kind: IssueKind)
    requires forall i :: 0 <= i < |issues| ==> issues[i].affected > 0
    ensures SatSum(AffectedOf(issues, Only(kind))) > 0 <==> exists i :: 0 <= i < |issues| && issues[i].kind == kind
  {
    var n := |issues|;
    if n > 0 {
      SelectedIsPositive(issues[..n - 1], kind);
      SatSumLast(AffectedOf(issues[..n - 1], Only(kind)),
                 if issues[n - 1].kind == kind then Some(issues[n - 1].affected) else None);
      assert forall i :: 0 <= i < n - 1 ==> issues[..n - 1][i] == issues[i];
    }
  }

  // ----- Retry schedule

  datatype RetryBackoff = RetryBackoff(clients: set<ClientId>, signature: Digest, attempt: nat, notBefore: nat)

  datatype Previous = Previous(signature: Digest, attempt: nat)

  function Pow2(n: nat): nat {
    if n == 0 then 1 else 2 * Pow2(n - 1)
  }

  /** Doubling from five minutes, at most six hours. */
  function Delay(attempt: nat): nat {
    var exponent := Min(if attempt == 0 then 0 else attempt - 1, 31);
    Min(Sat(RETRY_BASE_DELAY_MS * Pow2(exponent)), RETRY_MAX_DELAY_MS)
  }

  function NextAttempt(previous: Option<Previous>, signature: Digest): nat {
    if previous.Some? && previous.value.signature == signature then Min(previous.value.attempt + 1, U32_MAX) else 1
  }

  function NextRetry(env: Env, g: Generation, now: nat, previous: Option<Previous>): Option<RetryBackoff> {
    match MetadataOf(env, g)
    case None => None
    case Some(m) =>
      var attempt := NextAttempt(previous, m.signature);
      Some(RetryBackoff(m.clients, m.signature, attempt, Sat(now + Delay(attempt))))
  }

  lemma {:induction false} Pow2Grows(a: nat, b: nat)
    requires a <= b
    ensures 1 <= Pow2(a) <= Pow2(b)
    decreases b
  {
    if a < b {
      Pow2Grows(a, b - 1);
    } else if a > 0 {
      Pow2Grows(a - 1, b - 1);
    }
  }

  lemma Capped(x: nat, y: nat)
    requires x <= y
    ensures Min(Sat(RETRY_BASE_DELAY_MS * x), RETRY_MAX_DELAY_MS)
         <= Min(Sat(RETRY_BASE_DELAY_MS * y), RETRY_MAX_DELAY_MS)
  {
  }

  lemma SevenDoublings()
    ensures Pow2(7) == 128
  {
    assert Pow2(3) == 8;
    assert Pow2(7) == 2 * (2 * (2 * (2 * Pow2(3))));
  }

  /** Along a streak the delay starts at five minutes, never shrinks and stays at six hours from the eighth attempt. */
  lemma DelayGrows(a: nat, b: nat)
    requires 1 <= a <= b
    ensures Delay(1) == RETRY_BASE_DELAY_MS
    ensures RETRY_BASE_DELAY_MS <= Delay(a) <= Delay(b) <= RETRY_MAX_DELAY_MS
    ensures a >= 8 ==> Delay(a) == RETRY_MAX_DELAY_MS
  {
    var x, y := Min(a - 1, 31), Min(b - 1, 31);
    assert Pow2(0) == 1;
    Pow2Grows(0, x);
    Pow2Grows(x, y);
    Capped(1, Pow2(x));
    Capped(Pow2(x), Pow2(y));
    if a >= 8 {
      Pow2Grows(7, x);
      SevenDoublings();
      Capped(128, Pow2(x));
    }
  }

  // ----- Saving

  /** The retry fields of the previous header; anything unreadable counts as none. */
  function ReadPrevious(env: Env, file: Option<Bytes>): Option<Previous> {
    if file.None? || |file.value| < HEADER_LEN then None
    else
      match Decode(file.value[..HEADER_LEN], env.hash)
      case Err(_) => None
      case Ok(h) =>
        if |file.value| != h.ExpectedFileLen() then None
        else PreviousOf(h)
  }

  function PreviousOf(h: Header): Option<Previous> {
    if h.signature == ZERO then None else Some(Previous(h.signature, h.attempt))
  }

  datatype SaveError =
    | InvalidGeneration
    | NoAffectedClient
    | RetryIssuesWithoutCounters
    | DecodedBodyTooLarge
    | BodyTooLarge

  datatype Saved = Saved(file: Bytes, retry: Option<RetryBackoff>)

  function HeaderFor(now: nat, body: Bytes, decodedLen: nat, hash: Hash, retry: Option<RetryBackoff>): Header {
    match retry
    case None => Header(now, |body|, decodedLen, hash(body), 0, 0, ZERO)
    case Some(r) => Header(now, |body|, decodedLen, hash(body), r.attempt, r.notBefore, r.signature)
  }

  function Save(env: Env, file: Option<Bytes>, g: Generation, now: nat): Result<Saved, SaveError> {
    var metadata := MetadataOf(env, g);
    if !IsValid(env, g) then Err(InvalidGeneration)
    else if RequiresInputRetry(g.health) && (metadata.None? || metadata.value.clients == {}) then Err(NoAffectedClient)
    else if !RequiresInputRetry(g.health) && metadata.Some? then Err(RetryIssuesWithoutCounters)
    else
      var retry := NextRetry(env, g, now, ReadPrevious(env, file));
      var plain := env.plain(GenerationToWire(g));
      var body := env.pack(plain);
      if |plain| > MAX_BODY then Err(DecodedBodyTooLarge)
      else if |body| > MAX_BODY then Err(BodyTooLarge)
      else Ok(Saved(Encode(HeaderFor(now, body, |plain|, env.hash, retry), env.hash) + body, retry))
  }

  // ----- Loading

  datatype LoadResult =
    | Fresh(generation: Generation)
    | Stale(generation: Generation, retry: Option<RetryBackoff>)
    | RetryDeferred(generation: Generation, backoff: RetryBackoff)
    | Missing
    | DecodeFailure
    | ClockFailure

  datatype Envelope = Envelope(savedAt: nat, attempt: nat, notBefore: nat, generation: Generation)

  function DecodeBody(env: Env, h: Header, body: Bytes): Option<Generation> {
    if env.hash(body) != h.bodyDigest then None
    else
      match env.unpack(body)
      case None => None
      case Some(plain) =>
        if |plain| != h.decodedLen then None
        else
          match env.unplain(plain)
          case None => None
          case Some(w) => GenerationFromWire(w)
  }

  /** The header's schedule and the generation's health must tell the same story. */
  predicate RetryConsistent(env: Env, h: Header, g: Generation) {
    var metadata, previous := MetadataOf(env, g), PreviousOf(h);
    if RequiresInputRetry(g.health)
    then metadata.Some? && metadata.value.clients != {} && previous.Some?
         && previous.value.signature == metadata.value.signature
    else metadata.None? && previous.None?
  }

  function DecodeFile(env: Env, file: Bytes): Option<Envelope> {
    if |file| > HEADER_LEN + MAX_BODY || |file| < HEADER_LEN then None
    else
      match Decode(file[..HEADER_LEN], env.hash)
      case Err(_) => None
      case Ok(h) =>
        if h.bodyLen == 0 || h.bodyLen > MAX_BODY || h.decodedLen == 0 || h.decodedLen > MAX_BODY then None
        else if |file| != h.ExpectedFileLen() then None
        else
          match DecodeBody(env, h, file[HEADER_LEN..])
          case None => None
          case Some(g) =>
            if IsValid(env, g) && RetryConsistent(env, h, g)
            then Some(Envelope(h.savedAt, h.attempt, h.notBefore, g)) else None
  }

  function Load(env: Env, file: Option<Bytes>, config: Bytes, now: nat): LoadResult {
    if file.None? then Missing
    else
      match DecodeFile(env, file.value)
      case None => DecodeFailure
      case Some(e) =>
        if e.generation.config != config then Missing
        else if now < e.savedAt then ClockFailure
        else
          var metadata := MetadataOf(env, e.generation);
          if RequiresInputRetry(e.generation.health) then
            if metadata.None? then DecodeFailure
            else
              var backoff := RetryBackoff(metadata.value.clients, metadata.value.signature, e.attempt, e.notBefore);
              if now < backoff.notBefore then RetryDeferred(e.generation, backoff)
              else Stale(e.generation, Some(backoff))
          else if now - e.savedAt <= STALE_THRESHOLD_MS then Fresh(e.generation)
          else Stale(e.generation, None)
  }

  // ----- What is saved can be loaded

  /** The header a save writes fits its fields, passes its own checks and is read back. */
  lemma SavedHeader(env: Env, file: Option<Bytes>, g: Generation, now: nat) returns (h: Header, body: Bytes)
    requires Faithful(env) && now <= U64_MAX && Save(env, file, g, now).Ok?
    ensures var saved := Save(env, file, g, now).value;
      && body == env.pack(env.plain(GenerationToWire(g)))
      && h == HeaderFor(now, body, |env.plain(GenerationToWire(g))|, env.hash, saved.retry)
      && |saved.file| == HEADER_LEN + |body| && saved.file[HEADER_LEN..] == body
      && Decode(saved.file[..HEADER_LEN], env.hash) == Ok(h)
      && saved.retry == NextRetry(env, g, now, ReadPrevious(env, file))
  {
    var saved := Save(env, file, g, now).value;
    var plain := env.plain(GenerationToWire(g));
    body := env.pack(plain);
    h := HeaderFor(now, body, |plain|, env.hash, saved.retry);
    assert saved.file == Encode(h, env.hash) + body;
    PreviousFits(env, file);
    assert h.Fits() && h.RetryMetadataValid();
    EncodeThenDecode(h, env.hash, []);
    assert saved.file[..HEADER_LEN] == Encode(h, env.hash) + [];
  }

  lemma PreviousFits(env: Env, file: Option<Bytes>)
    ensures ReadPrevious(env, file).Some? ==> 0 < ReadPrevious(env, file).value.attempt <= U32_MAX
    ensures ReadPrevious(env, file).Some? ==> ReadPrevious(env, file).value.signature != ZERO
  {
    if ReadPrevious(env, file).Some? {
      DecodeThenEncode(file.value[..HEADER_LEN], env.hash);
    }
  }

  lemma SavedBodyDecodes(env: Env, g: Generation, h: Header)
    requires Faithful(env) && Validate(g.health).None? && Unreserved(g.health.issues)
    requires var plain := env.plain(GenerationToWire(g));
      h.decodedLen == |plain| && h.bodyDigest == env.hash(env.pack(plain))
    ensures DecodeBody(env, h, env.pack(env.plain(GenerationToWire(g)))) == Some(g)
  {
    SummaryRoundTrip(g.health);
    assert GenerationFromWire(GenerationToWire(g)) == Some(g);
  }

  /** The envelope a load should find. */
  function EnvelopeFor(now: nat, g: Generation, retry: Option<RetryBackoff>): Envelope {
    match retry
    case None => Envelope(now, 0, 0, g)
    case Some(r) => Envelope(now, r.attempt, r.notBefore, g)
  }

  /** A file passes if its header, its body and their agreement do. */
  lemma FileDecodes(env: Env, file: Bytes, h: Header, body: Bytes, g: Generation)
    requires |file| == HEADER_LEN + |body| && file[HEADER_LEN..] == body
    requires Decode(file[..HEADER_LEN], env.hash) == Ok(h) && DecodeBody(env, h, body) == Some(g)
    requires 0 < |body| == h.bodyLen <= MAX_BODY && 0 < h.decodedLen <= MAX_BODY
    requires IsValid(env, g) && RetryConsistent(env, h, g)
    ensures DecodeFile(env, file) == Some(Envelope(h.savedAt, h.attempt, h.notBefore, g))
  {
  }

  lemma SavedFileDecodes(env: Env, file: Option<Bytes>, g: Generation, now: nat)
    requires Faithful(env) && now <= U64_MAX && Save(env, file, g, now).Ok? && Unreserved(g.health.issues)
    ensures var saved := Save(env, file, g, now).value;
      DecodeFile(env, saved.file) == Some(EnvelopeFor(now, g, saved.retry))
  {
    var h, body := SavedHeader(env, file, g, now);
    SavedBodyDecodes(env, g, h);
    SavedIsConsistent(env, file, g, now, h);
    FileDecodes(env, Save(env, file, g, now).value.file, h, body, g);
  }

  lemma SavedIsConsistent(env: Env, file: Option<Bytes>, g: Generation, now: nat, h: Header)
    requires Faithful(env) && Save(env, file, g, now).Ok?
    requires h.signature == match Save(env, file, g, now).value.retry case None => ZERO case Some(r) => r.signature
    ensures RetryConsistent(env, h, g)
  {
  }

  /** What a load of a saved generation should say, by health, age and due time alone. */
  function Verdict(g: Generation, retry: Option<RetryBackoff>, savedAt: nat, now: nat): LoadResult
    requires savedAt <= now
  {
    match retry
    case Some(r) => if now < r.notBefore then RetryDeferred(g, r) else Stale(g, retry)
    case None => if now - savedAt <= STALE_THRESHOLD_MS then Fresh(g) else Stale(g, None)
  }

  /**
   * Whatever a successful save wrote over whatever file, a load under the same configuration
   * at any later clock classifies it by health, age and due time, unless a rejection reason is
   * reserved. A schedule is returned exactly for health that asks for a retry.
   */
  lemma LoadAfterSave(env: Env, file: Option<Bytes>, g: Generation, saved: nat, now: nat)
    requires Faithful(env) && saved <= now && saved <= U64_MAX
    requires Save(env, file, g, saved).Ok?
    ensures var s := Save(env, file, g, saved).value;
      && Load(env, Some(s.file), g.config, now)
         == (if Unreserved(g.health.issues) then Verdict(g, s.retry, saved, now) else DecodeFailure)
      && (s.retry.Some? <==> RequiresInputRetry(g.health))
      && (s.retry.Some? ==> saved <= s.retry.value.notBefore && s.retry.value.clients != {})
  {
    ScheduleOfSave(env, file, g, saved);
    if Unreserved(g.health.issues) {
      LoadAccepts(env, file, g, saved, now);
    } else {
      ReservedReasonIsRefused(env, file, g, saved, g.config, now);
    }
  }

  lemma LoadAccepts(env: Env, file: Option<Bytes>, g: Generation, saved: nat, now: nat)
    requires Faithful(env) && saved <= now && saved <= U64_MAX
    requires Save(env, file, g, saved).Ok? && Unreserved(g.health.issues)
    ensures Load(env, Some(Save(env, file, g, saved).value.file), g.config, now)
         == Verdict(g, Save(env, file, g, saved).value.retry, saved, now)
  {
    SavedFileDecodes(env, file, g, saved);
    ScheduleOfSave(env, file, g, saved);
    LoadOfEnvelope(env, Save(env, file, g, saved).value.file, g, Save(env, file, g, saved).value.retry, saved, now);
  }

  lemma LoadOfEnvelope(env: Env, file: Bytes, g: Generation, retry: Option<RetryBackoff>, saved: nat, now: nat)
    requires saved <= now && DecodeFile(env, file) == Some(EnvelopeFor(saved, g, retry))
    requires retry.Some? <==> RequiresInputRetry(g.health)
    requires retry.Some? ==> MetadataOf(env, g) == Some(FailureMetadata(retry.value.clients, retry.value.signature))
    ensures Load(env, Some(file), g.config, now) == Verdict(g, retry, saved, now)
  {
  }

  /** A save hands out a schedule exactly for health that asks for a retry. */
  lemma ScheduleOfSave(env: Env, file: Option<Bytes>, g: Generation, now: nat)
    requires Save(env, file, g, now).Ok? && now <= U64_MAX
    ensures var retry := Save(env, file, g, now).value.retry;
      && (retry.Some? <==> RequiresInputRetry(g.health))
      && (retry.Some? ==> MetadataOf(env, g) == Some(FailureMetadata(retry.value.clients, retry.value.signature)))
      && (retry.Some? ==> now <= retry.value.notBefore && retry.value.clients != {})
  {
    RetryTestsAgree(g.health);
  }

  /** Under another configuration it counts as missing, and before its own save as a clock failure. */
  lemma LoadElsewhere(env: Env, file: Option<Bytes>, g: Generation, saved: nat, config: Bytes, now: nat)
    requires Faithful(env) && saved <= U64_MAX
    requires Save(env, file, g, saved).Ok? && Unreserved(g.health.issues)
    ensures config != g.config ==> Load(env, Some(Save(env, file, g, saved).value.file), config, now) == Missing
    ensures now < saved ==> Load(env, Some(Save(env, file, g, saved).value.file), g.config, now) == ClockFailure
  {
    SavedFileDecodes(env, file, g, saved);
  }

  lemma ReservedBodyIsRefused(env: Env, g: Generation, h: Header)
    requires Faithful(env) && Validate(g.health).None? && !Unreserved(g.health.issues)
    ensures DecodeBody(env, h, env.pack(env.plain(GenerationToWire(g)))).None?
  {
    ReservedIsRefused(g.health);
    assert GenerationFromWire(GenerationToWire(g)).None?;
  }

  lemma ReservedFileIsRefused(env: Env, file: Option<Bytes>, g: Generation, saved: nat)
    requires Faithful(env) && saved <= U64_MAX
    requires Save(env, file, g, saved).Ok? && !Unreserved(g.health.issues)
    ensures DecodeFile(env, Save(env, file, g, saved).value.file).None?
  {
    var h, body := SavedHeader(env, file, g, saved);
    ReservedBodyIsRefused(env, g, h);
  }

  /**
   * A generation with a rejection reason spelled like a built-in kind is saved without an error,
   * and the file is refused as undecodable under every configuration and at every clock.
   */
  lemma ReservedReasonIsRefused(
      env: Env, file: Option<Bytes>, g: Generation, saved: nat, config: Bytes, now: nat)
    requires Faithful(env) && saved <= U64_MAX
    requires Save(env, file, g, saved).Ok? && !Unreserved(g.health.issues)
    ensures Load(env, Some(Save(env, file, g, saved).value.file), config, now) == DecodeFailure
  {
    ReservedFileIsRefused(env, file, g, saved);
  }

  /** A saved generation that carries the summary of a log is accepted unless the log has a reserved reason. */
  lemma LoadOfLog(env: Env, file: Option<Bytes>, g: Generation, saved: nat, now: nat, log: Log)
    requires Faithful(env) && saved <= now && saved <= U64_MAX
    requires Save(env, file, g, saved).Ok? && g.health == Summarize(log)
    ensures var s := Save(env, file, g, saved).value;
      Load(env, Some(s.file), g.config, now)
      == if HasReservedReason(log) then DecodeFailure else Verdict(g, s.retry, saved, now)
  {
    ReservedInSummary(log);
    LoadAfterSave(env, file, g, saved, now);
  }

  // ----- What any accepted file is

  /**
   * Only one kind of file is accepted, whoever wrote it: the encoding of a header that fits its fields and
   * passes its own checks, followed by the body it describes. What comes out is a valid generation without
   * reserved reasons, whose health tells the same story as the header's schedule.
   */
  lemma AcceptedFile(env: Env, file: Bytes) returns (h: Header, body: Bytes)
    requires DecodeFile(env, file).Some?
    ensures file == Encode(h, env.hash) + body
    ensures h.Fits() && h.RetryMetadataValid()
    ensures 0 < h.bodyLen == |body| <= MAX_BODY && env.hash(body) == h.bodyDigest
    ensures var e := DecodeFile(env, file).value;
      && e.savedAt == h.savedAt && e.attempt == h.attempt && e.notBefore == h.notBefore
      && DecodeBody(env, h, body) == Some(e.generation)
      && IsValid(env, e.generation) && Unreserved(e.generation.health.issues)
      && RetryConsistent(env, h, e.generation)
  {
    h := Decode(file[..HEADER_LEN], env.hash).value;
    body := file[HEADER_LEN..];
    DecodeThenEncode(file[..HEADER_LEN], env.hash);
    assert file == file[..HEADER_LEN] + body;
    DecodedIsUnreserved(env, h, body);
  }

  lemma DecodedIsUnreserved(env: Env, h: Header, body: Bytes)
    requires DecodeBody(env, h, body).Some?
    ensures Unreserved(DecodeBody(env, h, body).value.health.issues)
  {
    var w := env.unplain(env.unpack(body).value).value;
    AcceptedWireIsExact(w.health);
  }
}
