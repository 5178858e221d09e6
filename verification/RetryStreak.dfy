/** How the retry counter in the header follows a whole history of saves and mishaps. */
module RetryStreak {
  import opened Options
  import opened Words
  import opened Sums
  import opened CacheHeader
  import opened InputHealth
  import opened GenerationCache

  /** How publishing the file ends: the rename may be done although the call fails behind it. */
  datatype Ending = Returned | FailedBeforeRename | FailedAfterRename

  /**
   * `headerRead` is false when the header of the previous file cannot be read just then; the save
   * goes on as if there were none.
   */
  datatype Event =
    | SaveAt(g: Generation, now: nat, headerRead: bool, ending: Ending)
    | BodyDamaged(body: Bytes)                // bytes behind the header change, not their number
    | HeaderLost(left: Option<Bytes>)         // the file is gone, or its header is not readable

  /** The previous file, as a save sees it. */
  function Seen<T>(file: Option<T>, headerRead: bool): Option<T> {
    if headerRead then file else None
  }

  /** The cache file after one event; a save that fails before its rename leaves it as it was. */
  function FileAfterEvent(env: Env, file: Option<Bytes>, e: Event): Option<Bytes> {
    match e
    case SaveAt(g, now, headerRead, ending) =>
      (match Save(env, Seen(file, headerRead), g, now)
       case Ok(saved) => if ending.FailedBeforeRename? then file else Some(saved.file)
       case Err(_) => file)
    case BodyDamaged(body) =>
      if file.Some? && |file.value| == HEADER_LEN + |body| then Some(file.value[..HEADER_LEN] + body) else file
    case HeaderLost(left) =>
      if ReadPrevious(env, left).None? then left else file
  }

  function FileAfter(env: Env, file: Option<Bytes>, events: seq<Event>): Option<Bytes> {
    if |events| == 0 then file
    else FileAfterEvent(env, FileAfter(env, file, events[..|events| - 1]), events[|events| - 1])
  }

  /** A run of published saves whose failures have the same signature. */
  datatype Streak = Streak(signature: Digest, length: nat)

  function Extended(streak: Option<Streak>, signature: Digest): Streak {
    if streak.Some? && streak.value.signature == signature then Streak(signature, streak.value.length + 1)
    else Streak(signature, 1)
  }

  /** Whether an event puts a new file in place, the save's own error or not. */
  predicate Publishes(env: Env, e: Event) {
    e.SaveAt? && !e.ending.FailedBeforeRename? && Save(env, None, e.g, e.now).Ok?
  }

  /**
   * The current streak, read off the history alone: every published save counts, healthy saves and
   * lost headers end it, and a save that could not read the previous header starts a new one.
   */
  function StreakAfter(env: Env, initial: Option<Streak>, events: seq<Event>): Option<Streak> {
    if |events| == 0 then initial
    else
      var before := StreakAfter(env, initial, events[..|events| - 1]);
      var last := events[|events| - 1];
      match last
      case SaveAt(g, now, headerRead, _) =>
        if !Publishes(env, last) then before
        else
          (match MetadataOf(env, g)
           case None => None
           case Some(m) => Some(Extended(Seen(before, headerRead), m.signature)))
      case BodyDamaged(_) => before
      case HeaderLost(left) => if ReadPrevious(env, left).None? then None else before
  }

  /** The streak a file stands for, as far as its header tells. */
  function StreakOf(env: Env, file: Option<Bytes>): Option<Streak> {
    match ReadPrevious(env, file)
    case None => None
    case Some(p) => Some(Streak(p.signature, p.attempt))
  }

  lemma EveryFileStartsAStreak(env: Env, file: Option<Bytes>)
    ensures Begins(env, file, StreakOf(env, file))
  {
    PreviousFits(env, file);
  }

  /** The file stores this streak. */
  ghost predicate Begins(env: Env, file: Option<Bytes>, initial: Option<Streak>) {
    ReadPrevious(env, file) == Stored(initial) && (initial.Some? ==> initial.value.length >= 1)
  }

  /** What the header stores of a streak. */
  function Stored(streak: Option<Streak>): Option<Previous> {
    match streak
    case None => None
    case Some(s) => Some(Previous(s.signature, Min(s.length, U32_MAX)))
  }

  ghost predicate Clocked(events: seq<Event>) {
    forall i :: 0 <= i < |events| && events[i].SaveAt? ==> events[i].now <= U64_MAX
  }

  /** Whether a save succeeds does not depend on the file it replaces. */
  lemma SaveIgnoresFile(env: Env, file: Option<Bytes>, g: Generation, now: nat)
    ensures Save(env, file, g, now).Ok? <==> Save(env, None, g, now).Ok?
  {
  }

  /** The schedule a save writes is the one the next save reads. */
  lemma SavedRetryIsReadBack(env: Env, file: Option<Bytes>, g: Generation, now: nat)
    requires Faithful(env) && now <= U64_MAX && Save(env, file, g, now).Ok?
    ensures var saved := Save(env, file, g, now).value;
      ReadPrevious(env, Some(saved.file))
      == if saved.retry.Some? then Some(Previous(saved.retry.value.signature, saved.retry.value.attempt)) else None
  {
    var h, body := SavedHeader(env, file, g, now);
  }

  lemma BodyDamageKeepsPrevious(env: Env, file: Option<Bytes>, body: Bytes)
    ensures ReadPrevious(env, FileAfterEvent(env, file, BodyDamaged(body))) == ReadPrevious(env, file)
  {
    if file.Some? && |file.value| == HEADER_LEN + |body| {
      assert (file.value[..HEADER_LEN] + body)[..HEADER_LEN] == file.value[..HEADER_LEN];
    }
  }

  /**
   * Over any history, on whatever file it begins, the stored attempt is the length of the current
   * streak, capped at the counter's width, under the streak's signature; without a streak nothing
   * is stored.
   */
  lemma {:induction false} StoredAttemptIsStreak(
      env: Env, file: Option<Bytes>, initial: Option<Streak>, events: seq<Event>)
    requires Faithful(env) && Begins(env, file, initial) && Clocked(events)
    ensures Begins(env, FileAfter(env, file, events), StreakAfter(env, initial, events))
  {
    var n := |events|;
    if n > 0 {
      StoredAttemptIsStreak(env, file, initial, events[..n - 1]);
      StoredAfterEvent(env, FileAfter(env, file, events[..n - 1]), initial, events);
    }
  }

  lemma StoredAfterEvent(env: Env, file: Option<Bytes>, initial: Option<Streak>, events: seq<Event>)
    requires Faithful(env) && |events| > 0 && Clocked(events)
    requires Begins(env, file, StreakAfter(env, initial, events[..|events| - 1]))
    ensures Begins(env, FileAfterEvent(env, file, events[|events| - 1]), StreakAfter(env, initial, events))
  {
    var before, last := StreakAfter(env, initial, events[..|events| - 1]), events[|events| - 1];
    match last
    case SaveAt(g, now, headerRead, ending) =>
      SaveIgnoresFile(env, Seen(file, headerRead), g, now);
      if Publishes(env, last) {
        StoredAfterSave(env, Seen(file, headerRead), Seen(before, headerRead), g, now);
      }
    case BodyDamaged(body) => BodyDamageKeepsPrevious(env, file, body);
    case HeaderLost(left) =>
  }

  /** A published save stores the streak it extends. */
  lemma StoredAfterSave(env: Env, file: Option<Bytes>, streak: Option<Streak>, g: Generation, now: nat)
    requires Faithful(env) && now <= U64_MAX && Begins(env, file, streak) && Save(env, file, g, now).Ok?
    ensures Begins(env, Some(Save(env, file, g, now).value.file),
                   match MetadataOf(env, g) case None => None case Some(m) => Some(Extended(streak, m.signature)))
  {
    SavedRetryIsReadBack(env, file, g, now);
    var h, body := SavedHeader(env, file, g, now);
    if MetadataOf(env, g).Some? {
      ExtendedAttempt(streak, MetadataOf(env, g).value.signature);
    }
  }

  lemma ExtendedAttempt(streak: Option<Streak>, signature: Digest)
    requires streak.Some? ==> streak.value.length >= 1
    ensures NextAttempt(Stored(streak), signature) == Min(Extended(streak, signature).length, U32_MAX)
  {
  }

  /** Due one delay after the save; the delay lies between its base and its cap. */
  predicate IsDue(r: RetryBackoff, now: nat) {
    r.notBefore == Sat(now + Delay(r.attempt)) && RETRY_BASE_DELAY_MS <= Delay(r.attempt) <= RETRY_MAX_DELAY_MS
  }

  /** The schedule of one save: its attempt, and when it is due. */
  lemma RetryOfSave(env: Env, file: Option<Bytes>, g: Generation, now: nat)
    requires Save(env, file, g, now).Ok? && Save(env, file, g, now).value.retry.Some?
    ensures var r := Save(env, file, g, now).value.retry.value;
      && MetadataOf(env, g).Some? && r.signature == MetadataOf(env, g).value.signature
      && r.attempt == NextAttempt(ReadPrevious(env, file), r.signature)
      && 1 <= r.attempt <= U32_MAX && IsDue(r, now)
  {
    PreviousFits(env, file);
    var r := Save(env, file, g, now).value.retry.value;
    DelayGrows(r.attempt, r.attempt);
  }

  /**
   * The schedule computed by the save behind any history is that of the streak it belongs to, whether
   * the save returns it or fails behind its rename; if it fails before, the streak is as it was.
   */
  lemma ScheduledDelay(
      env: Env, file: Option<Bytes>, initial: Option<Streak>, before: seq<Event>,
      g: Generation, now: nat, headerRead: bool, ending: Ending)
    requires Faithful(env) && Begins(env, file, initial) && Clocked(before) && now <= U64_MAX
    requires Save(env, Seen(FileAfter(env, file, before), headerRead), g, now).Ok?
    requires Save(env, Seen(FileAfter(env, file, before), headerRead), g, now).value.retry.Some?
    ensures var r := Save(env, Seen(FileAfter(env, file, before), headerRead), g, now).value.retry.value;
      var known := StreakAfter(env, initial, before);
      var streak := Extended(Seen(known, headerRead), r.signature);
      && StreakAfter(env, initial, before + [SaveAt(g, now, headerRead, ending)])
         == (if ending.FailedBeforeRename? then known else Some(streak))
      && r.attempt == Min(streak.length, U32_MAX)
      && IsDue(r, now)
  {
    var current, known := Seen(FileAfter(env, file, before), headerRead), StreakAfter(env, initial, before);
    StoredAttemptIsStreak(env, file, initial, before);
    RetryOfSave(env, current, g, now);
    SaveIgnoresFile(env, current, g, now);
    var e := SaveAt(g, now, headerRead, ending);
    assert (before + [e])[..|before|] == before;
    ExtendedAttempt(Seen(known, headerRead), MetadataOf(env, g).value.signature);
  }
}
