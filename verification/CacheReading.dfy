/** Which bytes are accepted as a cache file, whoever wrote them, and what a load answers for them. */
module CacheReading {
  import opened Options
  import opened Words
  import opened CacheHeader
  import opened InputHealth
  import opened HealthWire
  import opened GenerationCache
  import opened RetryFailures

  // ----- The parts of a file

  ghost predicate AllZero(d: Digest) {
    forall i :: 0 <= i < DIGEST_LEN ==> d[i] == 0
  }

  /** No schedule at all, or a positive attempt under a signature, due at or after the save. */
  ghost predicate HasSoundSchedule(h: Header) {
    || (h.attempt == 0 && h.notBefore == 0 && AllZero(h.signature))
    || (h.attempt > 0 && h.notBefore >= h.savedAt && !AllZero(h.signature))
  }

  lemma ZeroIsAllZero(d: Digest)
    ensures d == ZERO <==> AllZero(d)
  {
  }

  lemma SoundScheduleIsValid(h: Header)
    ensures h.RetryMetadataValid() <==> HasSoundSchedule(h)
  {
    ZeroIsAllZero(h.signature);
  }

  /** An encoded header with a sound schedule, and behind it as many bytes as it says, of its digest. */
  ghost predicate IsFramed(env: Env, file: Bytes, h: Header, body: Bytes) {
    && h.Fits() && HasSoundSchedule(h)
    && file == Encode(h, env.hash) + body && |body| == h.bodyLen && env.hash(body) == h.bodyDigest
  }

  /** The body holds the generation: packed to a length of its own and written in its wire form. */
  ghost predicate Holds(env: Env, h: Header, body: Bytes, g: Generation) {
    exists plain ::
      && env.unpack(body) == Some(plain) && |plain| == h.decodedLen
      && env.unplain(plain) == Some(GenerationToWire(g))
      && Validate(g.health).None? && Unreserved(g.health.issues)
  }

  ghost predicate Retries(issues: seq<Issue>) {
    exists issue :: issue in issues && IsRetryable(issue)
  }

  ghost predicate RetriesClient(issues: seq<Issue>) {
    exists issue :: issue in issues && IsRetryable(issue) && issue.client.Some?
  }

  /** The header has the signature of the failures, or none if nothing is to be retried. */
  ghost predicate SignedFor(env: Env, h: Header, issues: seq<Issue>) {
    if Retries(issues)
    then RetriesClient(issues) && h.signature == env.signature(Failures(issues)) && !AllZero(h.signature)
    else AllZero(h.signature)
  }

  /** The file is that of this header and this generation, within the limits. */
  ghost predicate IsCacheFile(env: Env, file: Bytes, h: Header, g: Generation) {
    && |file| >= HEADER_LEN
    && IsFramed(env, file, h, file[HEADER_LEN..]) && Holds(env, h, file[HEADER_LEN..], g)
    && 0 < h.bodyLen <= 268_435_456 && 0 < h.decodedLen <= 268_435_456
    && env.coherent(g) && SignedFor(env, h, g.health.issues)
  }

  // ----- Exactly these are accepted

  lemma BodyHolds(env: Env, h: Header, body: Bytes, g: Generation)
    ensures DecodeBody(env, h, body) == Some(g) && Validate(g.health).None?
        <==> env.hash(body) == h.bodyDigest && Holds(env, h, body, g)
  {
    if DecodeBody(env, h, body) == Some(g) {
      var w := env.unplain(env.unpack(body).value).value;
      AcceptedWireIsExact(w.health);
      assert GenerationToWire(g) == w;
    }
    if env.hash(body) == h.bodyDigest && Holds(env, h, body, g) {
      SummaryRoundTrip(g.health);
      assert GenerationFromWire(GenerationToWire(g)) == Some(g);
    }
  }

  lemma ConsistentIsSigned(env: Env, h: Header, g: Generation)
    requires Validate(g.health).None?
    ensures RetryConsistent(env, h, g) <==> SignedFor(env, h, g.health.issues)
  {
    RetryTestsAgree(g.health);
    MetadataIsExact(env, g);
    SomeClient(env, g);
    ZeroIsAllZero(h.signature);
  }

  lemma FramedIsRead(env: Env, file: Bytes, h: Header)
    requires |file| >= HEADER_LEN && IsFramed(env, file, h, file[HEADER_LEN..])
    ensures Decode(file[..HEADER_LEN], env.hash) == Ok(h)
  {
    SoundScheduleIsValid(h);
    EncodeThenDecode(h, env.hash, []);
    assert file[..HEADER_LEN] == Encode(h, env.hash) + [];
  }

  lemma CacheFileIsAccepted(env: Env, file: Bytes, h: Header, g: Generation)
    requires IsCacheFile(env, file, h, g)
    ensures DecodeFile(env, file) == Some(Envelope(h.savedAt, h.attempt, h.notBefore, g))
  {
    FramedIsRead(env, file, h);
    BodyHolds(env, h, file[HEADER_LEN..], g);
    ConsistentIsSigned(env, h, g);
    FileDecodes(env, file, h, file[HEADER_LEN..], g);
  }

  lemma AcceptedIsCacheFile(env: Env, file: Bytes) returns (h: Header)
    requires DecodeFile(env, file).Some?
    ensures IsCacheFile(env, file, h, DecodeFile(env, file).value.generation)
    ensures var e := DecodeFile(env, file).value;
      e.savedAt == h.savedAt && e.attempt == h.attempt && e.notBefore == h.notBefore
  {
    var g := DecodeFile(env, file).value.generation;
    var body;
    h, body := AcceptedFile(env, file);
    assert body == file[HEADER_LEN..];
    SoundScheduleIsValid(h);
    BodyHolds(env, h, body, g);
    ConsistentIsSigned(env, h, g);
    AcceptedLengths(env, file, h, body);
  }

  lemma AcceptedLengths(env: Env, file: Bytes, h: Header, body: Bytes)
    requires DecodeFile(env, file).Some? && file == Encode(h, env.hash) + body
    requires h.Fits() && h.RetryMetadataValid()
    ensures 0 < h.decodedLen <= MAX_BODY
  {
    EncodeThenDecode(h, env.hash, []);
    assert file[..HEADER_LEN] == Encode(h, env.hash) + [];
  }

  /** A file is accepted if and only if it is one, and then as what its header and its generation say. */
  lemma AcceptedIsExact(env: Env, file: Bytes, e: Envelope)
    ensures DecodeFile(env, file) == Some(e) <==>
            exists h :: IsCacheFile(env, file, h, e.generation)
              && e.savedAt == h.savedAt && e.attempt == h.attempt && e.notBefore == h.notBefore
  {
    if DecodeFile(env, file) == Some(e) {
      var h := AcceptedIsCacheFile(env, file);
    }
    if h :| IsCacheFile(env, file, h, e.generation)
            && e.savedAt == h.savedAt && e.attempt == h.attempt && e.notBefore == h.notBefore {
      CacheFileIsAccepted(env, file, h, e.generation);
    }
  }

  // ----- What a load answers

  /** The clients that retryable issues name. */
  ghost predicate AreAffected(clients: set<ClientId>, issues: seq<Issue>) {
    forall c :: c in clients <==> exists issue :: issue in issues && IsRetryable(issue) && issue.client == Some(c)
  }

  /** The answer for a cache file, told on its header and its generation. */
  ghost predicate Answers(h: Header, g: Generation, config: Bytes, now: nat, r: LoadResult) {
    if g.config != config then r == Missing
    else if now < h.savedAt then r == ClockFailure
    else if Retries(g.health.issues) then
      exists clients :: AreAffected(clients, g.health.issues) &&
        var backoff := RetryBackoff(clients, h.signature, h.attempt, h.notBefore);
        r == if now < h.notBefore then RetryDeferred(g, backoff) else Stale(g, Some(backoff))
    else r == if now <= h.savedAt + 300_000 then Fresh(g) else Stale(g, None)
  }

  /** A load of a cache file answers for its header and its generation. */
  lemma LoadOfCacheFile(env: Env, file: Bytes, h: Header, g: Generation, config: Bytes, now: nat)
    requires IsCacheFile(env, file, h, g)
    ensures Answers(h, g, config, now, Load(env, Some(file), config, now))
  {
    CacheFileIsAccepted(env, file, h, g);
    RetryTestsAgree(g.health);
    MetadataIsExact(env, g);
    if Retries(g.health.issues) {
      assert AreAffected(MetadataOf(env, g).value.clients, g.health.issues);
    }
  }

  /** Anything else fails to decode, under every configuration and at every clock. */
  lemma LoadOfOther(env: Env, file: Bytes, config: Bytes, now: nat)
    requires forall h, g :: !IsCacheFile(env, file, h, g)
    ensures Load(env, Some(file), config, now) == DecodeFailure
  {
    if DecodeFile(env, file).Some? {
      var h := AcceptedIsCacheFile(env, file);
      assert false;
    }
  }
}
