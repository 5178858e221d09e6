/** The delays of one streak of failing saves, wherever its saves stand in a history. */
module RetryDelays {
  import opened Options
  import opened Words
  import opened Sums
  import opened CacheHeader
  import opened GenerationCache
  import opened RetryStreak

  predicate FailsWith(env: Env, g: Generation, signature: Digest) {
    MetadataOf(env, g).Some? && MetadataOf(env, g).value.signature == signature
  }

  /** The event neither ends a streak with this signature nor starts another one. */
  predicate StaysIn(env: Env, e: Event, signature: Digest) {
    match e
    case SaveAt(g, now, headerRead, ending) =>
      Publishes(env, e) ==> headerRead && FailsWith(env, g, signature)
    case BodyDamaged(_) => true
    case HeaderLost(left) => ReadPrevious(env, left).Some?
  }

  ghost predicate AllStayIn(env: Env, events: seq<Event>, signature: Digest) {
    forall e :: e in events ==> StaysIn(env, e, signature)
  }

  function PublishedSaves(env: Env, events: seq<Event>): nat {
    if |events| == 0 then 0
    else PublishedSaves(env, events[..|events| - 1]) + if Publishes(env, events[|events| - 1]) then 1 else 0
  }

  lemma StreakOneMore(
      env: Env, initial: Option<Streak>, events: seq<Event>, e: Event, signature: Digest, length: nat)
    returns (longer: nat)
    requires StreakAfter(env, initial, events) == Some(Streak(signature, length)) && StaysIn(env, e, signature)
    ensures longer == length + if Publishes(env, e) then 1 else 0
    ensures StreakAfter(env, initial, events + [e]) == Some(Streak(signature, longer))
  {
    assert (events + [e])[..|events|] == events;
    longer := length + if Publishes(env, e) then 1 else 0;
  }

  /** A streak grows by one with each published save. */
  lemma {:induction false} StreakGrows(
      env: Env, initial: Option<Streak>, before: seq<Event>, events: seq<Event>, signature: Digest, length: nat)
    returns (longer: nat)
    requires StreakAfter(env, initial, before) == Some(Streak(signature, length))
    requires AllStayIn(env, events, signature)
    ensures longer == length + PublishedSaves(env, events)
    ensures StreakAfter(env, initial, before + events) == Some(Streak(signature, longer))
  {
    if |events| == 0 {
      longer := length;
      assert before + events == before;
    } else {
      var front, last := events[..|events| - 1], events[|events| - 1];
      longer := StreakGrows(env, initial, before, front, signature, length);
      assert last in events;
      longer := StreakOneMore(env, initial, before + front, last, signature, longer);
      SplitLast(before, events);
    }
  }

  /** The save computes this schedule. */
  predicate Computes(env: Env, file: Option<Bytes>, g: Generation, now: nat, r: RetryBackoff) {
    Save(env, file, g, now).Ok? && Save(env, file, g, now).value.retry == Some(r)
  }

  lemma ComputedOnStreak(
      env: Env, file: Option<Bytes>, initial: Option<Streak>, before: seq<Event>,
      g: Generation, now: nat, headerRead: bool, ending: Ending, r: RetryBackoff)
    returns (length: nat)
    requires Faithful(env) && Begins(env, file, initial) && Clocked(before) && now <= U64_MAX
    requires Computes(env, Seen(FileAfter(env, file, before), headerRead), g, now, r)
    requires !ending.FailedBeforeRename?
    ensures length >= 1 && r.attempt == Min(length, U32_MAX)
    ensures length == Extended(Seen(StreakAfter(env, initial, before), headerRead), r.signature).length
    ensures StreakAfter(env, initial, before + [SaveAt(g, now, headerRead, ending)])
         == Some(Streak(r.signature, length))
  {
    ScheduledDelay(env, file, initial, before, g, now, headerRead, ending);
    length := Extended(Seen(StreakAfter(env, initial, before), headerRead), r.signature).length;
  }

  lemma ComputedNext(
      env: Env, file: Option<Bytes>, initial: Option<Streak>, before: seq<Event>,
      g: Generation, now: nat, r: RetryBackoff, length: nat)
    requires Faithful(env) && Begins(env, file, initial) && Clocked(before) && now <= U64_MAX
    requires Computes(env, FileAfter(env, file, before), g, now, r)
    requires StreakAfter(env, initial, before) == Some(Streak(r.signature, length))
    ensures r.attempt == Min(length + 1, U32_MAX)
  {
    ScheduledDelay(env, file, initial, before, g, now, true, Returned);
  }

  lemma ComparedAttempts(length: nat, more: nat, earlier: nat, later: nat)
    requires length >= 1 && earlier == Min(length, U32_MAX) && later == Min(length + more + 1, U32_MAX)
    ensures later == Min(earlier + more + 1, U32_MAX) && Delay(earlier) <= Delay(later)
  {
    DelayGrows(earlier, later);
  }

  /** The streak behind the first save and the events after it. */
  lemma GrownStreak(
      env: Env, file: Option<Bytes>, initial: Option<Streak>, before: seq<Event>, first: Event,
      between: seq<Event>, more: nat, r: RetryBackoff)
    returns (length: nat, longer: nat)
    requires Faithful(env) && Begins(env, file, initial)
    requires Clocked(before) && Clocked(before + [first] + between)
    requires first.SaveAt? && !first.ending.FailedBeforeRename?
    requires Computes(env, Seen(FileAfter(env, file, before), first.headerRead), first.g, first.now, r)
    requires AllStayIn(env, between, r.signature) && more == PublishedSaves(env, between)
    ensures length >= 1 && r.attempt == Min(length, U32_MAX) && longer == length + more
    ensures StreakAfter(env, initial, before + [first] + between) == Some(Streak(r.signature, longer))
  {
    ClockedFirst(before, first, between);
    length := ComputedOnStreak(
      env, file, initial, before, first.g, first.now, first.headerRead, first.ending, r);
    longer := StreakGrows(env, initial, before + [first], between, r.signature, length);
  }

  /**
   * Of two saves of one streak in a history, the later computes the longer schedule: its attempt is higher
   * by the published saves from the one to the other, up to the counter's width, and its delay is no shorter.
   */
  lemma DelaysNeverShrink(
      env: Env, file: Option<Bytes>, initial: Option<Streak>, before: seq<Event>, first: Event,
      between: seq<Event>, more: nat, g: Generation, now: nat, earlier: RetryBackoff, later: RetryBackoff)
    requires Faithful(env) && Begins(env, file, initial) && now <= U64_MAX
    requires Clocked(before) && Clocked(before + [first] + between)
    requires first.SaveAt? && !first.ending.FailedBeforeRename?
    requires Computes(env, Seen(FileAfter(env, file, before), first.headerRead), first.g, first.now, earlier)
    requires Computes(env, FileAfter(env, file, before + [first] + between), g, now, later)
    requires AllStayIn(env, between, earlier.signature) && later.signature == earlier.signature
    requires more == PublishedSaves(env, between)
    ensures later.attempt == Min(earlier.attempt + more + 1, U32_MAX)
    ensures Delay(earlier.attempt) <= Delay(later.attempt)
  {
    var length, longer := GrownStreak(env, file, initial, before, first, between, more, earlier);
    ComputedNext(env, file, initial, before + [first] + between, g, now, later, longer);
    ComparedAttempts(length, more, earlier.attempt, later.attempt);
  }

  lemma ClockedFirst(before: seq<Event>, first: Event, between: seq<Event>)
    requires Clocked(before + [first] + between)
    ensures first.SaveAt? ==> first.now <= U64_MAX
  {
    assert (before + [first] + between)[|before|] == first;
  }
}
