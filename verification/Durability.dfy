/** What the directory sync at the end of a durable write is worth, whatever happens afterwards. */
module Durability {
  import opened Options
  import opened TempNames
  import opened AtomicWrite
  import opened Publication

  // ----- Until the next rename

  /** The sync brings the target's entry to the disk; its content is there exactly if it was before. */
  lemma SyncSecures(s: State, id: nat)
    requires Sound(s) && Enabled(s, Act(id, SyncDirectory)) && !TempShaped(s.writers[id].target)
    ensures var t, done := s.writers[id].target, After(s, Act(id, SyncDirectory));
      && SameTarget(s, done, t) && Sound(done) && Past(done, t) == {}
      && (Secured(done, t) <==> OnDisk(s, Entry(s, t)))
  {
    var t := s.writers[id].target;
    StepKeepsSound(s, Act(id, SyncDirectory));
    OnlyReplaceChangesTarget(s, Act(id, SyncDirectory), t);
    assert Entry(s, t) in Possible(s, t);
  }

  /**
   * Once a durable write has returned, its target stays as it is through any kills and power failures until
   * somebody renames onto it, provided that the content at the target had reached the disk when the directory
   * was synced.
   */
  lemma AcknowledgedWriteLasts(s: State, id: nat, after: seq<Event>, u: State)
    requires Sound(s) && Enabled(s, Act(id, SyncDirectory)) && !TempShaped(s.writers[id].target)
    requires OnDisk(s, Entry(s, s.writers[id].target))
    requires var done := After(s, Act(id, SyncDirectory));
      Run(done, after, u) && Quiet(done, after, s.writers[id].target)
    ensures SameTarget(s, u, s.writers[id].target)
  {
    var done := After(s, Act(id, SyncDirectory));
    SyncSecures(s, id);
    QuietRunKeepsTarget(done, after, u, s.writers[id].target);
  }

  /** The content is on the disk whenever only durable writers have been at the target. */
  lemma DurableWritersAreOnDisk(s0: State, before: seq<Event>, s: State, t: Path)
    requires Initial(s0, t) && Run(s0, before, s) && !TempShaped(t)
    requires forall k :: 0 <= k < |before| ==> Allowed(before[k], t, true)
    ensures Sound(s) && OnDisk(s, Entry(s, t)) && AllDurable(s, t)
  {
    TargetIsAlwaysWhole(s0, before, s, t, true);
    assert Entry(s, t) in Possible(s, t);
  }

  ghost predicate AllDurable(s: State, t: Path) {
    forall id :: id in s.writers && s.writers[id].target == t ==> s.writers[id].durable
  }

  /** Otherwise one power failure right behind the sync may leave any content at the target. */
  lemma UnsyncedContentIsLost(s: State, id: nat, content: Content) returns (loss: Event)
    requires Sound(s) && Enabled(s, Act(id, SyncDirectory)) && !TempShaped(s.writers[id].target)
    requires !OnDisk(s, Entry(s, s.writers[id].target))
    ensures var t, done := s.writers[id].target, After(s, Act(id, SyncDirectory));
      && loss.PowerLoss? && Enabled(done, loss)
      && var u := After(done, loss);
        Entry(u, t) == Entry(s, t) && Entry(s, t).value in u.data && u.data[Entry(s, t).value] == content
  {
    var t, done := s.writers[id].target, After(s, Act(id, SyncDirectory));
    SyncSecures(s, id);
    assert Entry(done, t) in Possible(done, t);
    var i := Entry(s, t).value;
    loss := PowerLoss(done.paths, done.data[i := content]);
    forall p
      ensures (if p in done.paths then Some(done.paths[p]) else None) in Possible(done, p)
    {
      assert Entry(done, p) in Possible(done, p);
    }
  }

  // ----- Over later renames

  /** The same run with the renames before it forgotten. */
  function Forgetful(s: State, renamed: set<nat>): State {
    s.(renamed := renamed)
  }

  lemma ForgetfulEffect(s: State, w: Writer, step: Step, renamed: set<nat>)
    requires CanAct(s, w, step)
    ensures CanAct(Forgetful(s, renamed), w, step)
    ensures Effect(Forgetful(s, renamed), w, step) == Forgetful(Effect(s, w, step), renamed)
    ensures Moved(Forgetful(s, renamed), w, step) == Moved(s, w, step)
  {
  }

  function RenamedWith(renamed: set<nat>, e: Event): set<nat> {
    if e.Act? && e.step.Replace? then renamed + {e.id} else renamed
  }

  lemma ForgetfulStep(s: State, e: Event, renamed: set<nat>)
    requires Enabled(s, e)
    ensures Enabled(Forgetful(s, renamed), e)
    ensures After(Forgetful(s, renamed), e) == Forgetful(After(s, e), RenamedWith(renamed, e))
  {
    match e
    case Act(id, step) => ForgetfulEffect(s, s.writers[id], step, renamed);
    case PowerLoss(_, _) => assert forall p :: Possible(Forgetful(s, renamed), p) == Possible(s, p);
    case _ =>
  }

  lemma {:induction false} ForgetfulRun(s: State, events: seq<Event>, u: State, renamed: set<nat>)
    returns (later: set<nat>)
    requires Run(s, events, u)
    ensures Run(Forgetful(s, renamed), events, Forgetful(u, later))
    decreases |events|
  {
    later := renamed;
    if |events| > 0 {
      ForgetfulStep(s, events[0], renamed);
      later := ForgetfulRun(After(s, events[0]), events[1..], u, RenamedWith(renamed, events[0]));
    }
  }

  /** A writer that has renamed during the events has left its complete payload at the target. */
  ghost predicate RenamedIn(events: seq<Event>, u: State, t: Path) {
    exists id :: Act(id, Replace) in events && LeftThere(u, id, t)
  }

  ghost predicate LeftThere(u: State, id: nat, t: Path) {
    && id in u.writers && u.writers[id].target == t
    && Entry(u, t).Some? && Entry(u, t).value in u.data && u.data[Entry(u, t).value] == u.writers[id].payload
  }

  /**
   * An acknowledged write is never rolled back. After the sync, over any later run of durable writers with
   * renames, kills and power failures, the target is as it was then or holds the complete payload of a writer
   * that has renamed since; nothing older ever comes back.
   */
  lemma NothingOlderComesBack(s: State, id: nat, after: seq<Event>, u: State)
    requires Sound(s) && Enabled(s, Act(id, SyncDirectory)) && !TempShaped(s.writers[id].target)
    requires var t := s.writers[id].target; OnDisk(s, Entry(s, t)) && AllDurable(s, t)
    requires Run(After(s, Act(id, SyncDirectory)), after, u)
    requires forall k :: 0 <= k < |after| ==> Allowed(after[k], s.writers[id].target, true)
    ensures var t := s.writers[id].target; SameTarget(s, u, t) || RenamedIn(after, u, t)
  {
    var t, done := s.writers[id].target, After(s, Act(id, SyncDirectory));
    SyncSecures(s, id);
    var base := Forgetful(done, {});
    ForgottenIsSound(done, {});
    SecuredIsPublished(base, t);
    var later := ForgetfulRun(done, after, u, {});
    var end := Forgetful(u, later);
    RunKeepsPublished(base, base, after, end, t, true);
    assert Entry(end, t) in Possible(end, t);
    WholeSince(s, base, after, end, u, t);
  }

  lemma ForgottenIsSound(s: State, renamed: set<nat>)
    requires Sound(s)
    ensures Sound(Forgetful(s, renamed))
  {
    var t := Forgetful(s, renamed);
    assert forall p :: Possible(t, p) == Possible(s, p);
    forall v | v in t.writers
      ensures WriterSound(t, t.writers[v])
    {
      SameFiles(s, t, t.writers[v]);
    }
  }

  lemma SecuredIsPublished(s: State, t: Path)
    requires Sound(s) && Secured(s, t) && AllDurable(s, t)
    ensures Published(s, s, t, true)
  {
    assert Possible(s, t) == {Entry(s, t)};
    assert Entry(s, t) in Possible(s, t);
  }

  lemma WholeSince(s: State, base: State, events: seq<Event>, end: State, u: State, t: Path)
    requires Run(base, events, end) && base.renamed == {} && SameTarget(s, base, t)
    requires end == Forgetful(u, end.renamed) && Whole(base, end, t, Entry(end, t))
    ensures SameTarget(s, u, t) || RenamedIn(events, u, t)
  {
    if id :| Entry(end, t).Some? && Brought(end, id, t, end.data[Entry(end, t).value]) {
      RenamedByReplacing(base, events, end, id);
      assert LeftThere(u, id, t);
    }
  }

  // ----- A writer that does not sync in between

  /** The writer behind its rename, and what it has left; nothing else has changed. */
  ghost predicate HasRenamed(s: State, u: State, id: nat, inode: nat)
    requires id in s.writers
  {
    var w := s.writers[id];
    && id in u.writers && u.writers == s.writers[id := u.writers[id]]
    && u.writers[id] == w.(phase := u.writers[id].phase)
    && u.writers[id].phase == (if w.durable then Replaced(Counter(s, w.pid), inode) else Done(true))
    && u.paths == s.paths[w.target := inode] && u.data == s.data[inode := w.payload]
    && u.onDisk == s.onDisk - {inode} + (if w.durable then {inode} else {})
    && u.counters == s.counters[w.pid := Counter(s, w.pid) + 1]
  }

  /** A temporary name is free, and so is the inode. */
  ghost predicate CanPublish(s: State, id: nat, inode: nat) {
    && id in s.writers && s.writers[id].phase == Choosing(0) && inode !in s.data
    && TempPath(s.writers[id].target, s.writers[id].pid, Counter(s, s.writers[id].pid)) !in s.paths
  }

  lemma Filled(s: State, id: nat, inode: nat) returns (events: seq<Event>, u: State)
    requires CanPublish(s, id, inode)
    ensures Run(s, events, u)
    ensures var w, n := s.writers[id], Counter(s, s.writers[id].pid);
      && u.writers == s.writers[id := w.(phase := Writing(n, inode))]
      && u.paths == s.paths[TempPath(w.target, w.pid, n) := inode]
      && u.data == s.data[inode := w.payload] && u.onDisk == s.onDisk - {inode}
      && u.counters == s.counters[w.pid := n + 1]
  {
    var w := s.writers[id];
    var s1 := After(s, Act(id, TakeName));
    var s2 := After(s1, Act(id, Create(inode)));
    u := After(s2, Act(id, Write(w.payload)));
    events := [Act(id, TakeName), Act(id, Create(inode)), Act(id, Write(w.payload))];
    RunOfThree(s, events[0], events[1], events[2]);
  }

  lemma RunOfThree(s: State, a: Event, b: Event, c: Event)
    requires Enabled(s, a) && Enabled(After(s, a), b) && Enabled(After(After(s, a), b), c)
    ensures Run(s, [a, b, c], After(After(After(s, a), b), c))
  {
    var t := After(After(s, a), b);
    assert [c][1..] == [];
    assert Run(t, [c], After(t, c));
    assert [b, c][1..] == [c];
    assert [a, b, c][1..] == [b, c];
  }

  lemma Renamed(s: State, id: nat, n: nat, inode: nat) returns (events: seq<Event>, u: State)
    requires id in s.writers && s.writers[id].phase == Writing(n, inode)
    requires inode in s.data && s.data[inode] == s.writers[id].payload
    requires var w := s.writers[id];
      Entry(s, TempPath(w.target, w.pid, n)) == Some(inode) && !TempShaped(w.target)
    ensures Run(s, events, u)
    ensures var w := s.writers[id];
      && u.writers == s.writers[id := w.(phase := if w.durable then Replaced(n, inode) else Done(true))]
      && u.paths == s.paths[w.target := inode] - {TempPath(w.target, w.pid, n)}
      && u.data == s.data && u.counters == s.counters
      && u.onDisk == s.onDisk + (if w.durable then {inode} else {})
  {
    var w := s.writers[id];
    TempIsNotTarget(w.target, w.pid, n);
    var s1 := After(s, Act(id, FinishWrite));
    var s2 := After(s1, Act(id, Settle));
    u := After(s2, Act(id, Replace));
    events := [Act(id, FinishWrite), Act(id, Settle), Act(id, Replace)];
    RunOfThree(s, events[0], events[1], events[2]);
  }

  lemma {:induction false} RunsJoin(s: State, a: seq<Event>, t: State, b: seq<Event>, u: State)
    requires Run(s, a, t) && Run(t, b, u)
    ensures Run(s, a + b, u)
    decreases |a|
  {
    if |a| == 0 {
      assert a + b == b;
    } else {
      assert (a + b)[1..] == a[1..] + b;
      RunsJoin(After(s, a[0]), a[1..], t, b, u);
    }
  }

  /** Every writer that finds a free name can get its rename done. */
  lemma CanRename(s: State, id: nat, inode: nat) returns (events: seq<Event>, u: State)
    requires CanPublish(s, id, inode) && !TempShaped(s.writers[id].target)
    ensures Run(s, events, u) && HasRenamed(s, u, id, inode)
  {
    var w, n := s.writers[id], Counter(s, s.writers[id].pid);
    var fill, t := Filled(s, id, inode);
    var rest;
    rest, u := Renamed(t, id, n, inode);
    TempIsNotTarget(w.target, w.pid, n);
    ByWayOfTemp(s.paths, TempPath(w.target, w.pid, n), w.target, inode);
    RunsJoin(s, fill, t, rest, u);
    events := fill + rest;
  }

  lemma ByWayOfTemp(paths: map<Path, nat>, temp: Path, target: Path, inode: nat)
    requires temp !in paths && temp != target
    ensures paths[temp := inode][target := inode] - {temp} == paths[target := inode]
  {
  }

  /**
   * The condition is needed. A durable writer and one that only makes its file visible rename onto the same
   * target, the durable one first; its directory sync then returns, and a power failure leaves any content.
   */
  lemma MixedWritersLoseContent(t: Path, content: Content)
    returns (s0: State, before: seq<Event>, s: State, loss: Event)
    requires !TempShaped(t)
    ensures Initial(s0, t) && Run(s0, before, s) && Enabled(s, Act(0, SyncDirectory)) && s.writers[0].target == t
    ensures var done := After(s, Act(0, SyncDirectory));
      && loss.PowerLoss? && Enabled(done, loss)
      && var u := After(done, loss);
        Entry(u, t) == Some(1) && 1 in u.data && u.data[1] == content
  {
    var first, second := Writer(7, t, true, [1], Choosing(0)), Writer(7, t, false, [2], Choosing(0));
    var starts, s1 := TwoStarts(first, second);
    s0 := State(map[], map[], {}, map[], map[], map[], {});
    var renames;
    renames, s := TwoRenames(s1, t);
    RunsJoin(s0, starts, s1, renames, s);
    before := starts + renames;
    RunKeepsSound(s0, before, s);
    loss := UnsyncedContentIsLost(s, 0, content);
  }

  lemma TwoStarts(first: Writer, second: Writer) returns (events: seq<Event>, u: State)
    requires first.phase == second.phase == Choosing(0) && !TempShaped(first.target) && !TempShaped(second.target)
    ensures Run(State(map[], map[], {}, map[], map[], map[], {}), events, u)
    ensures u == State(map[], map[], {}, map[], map[], map[0 := first, 1 := second], {})
  {
    var s0 := State(map[], map[], {}, map[], map[], map[], {});
    var s1 := After(s0, Start(0, first));
    u := After(s1, Start(1, second));
    events := [Start(0, first), Start(1, second)];
    assert events[1..] == [Start(1, second)];
    assert [Start(1, second)][1..] == [];
    assert Run(s1, [Start(1, second)], u);
  }

  lemma TwoRenames(s: State, t: Path) returns (events: seq<Event>, u: State)
    requires !TempShaped(t) && s.paths == map[] && s.data == map[] && s.counters == map[]
    requires s.writers == map[0 := Writer(7, t, true, [1], Choosing(0)), 1 := Writer(7, t, false, [2], Choosing(0))]
    ensures Run(s, events, u)
    ensures 0 in u.writers && u.writers[0].phase.Replaced? && u.writers[0].target == t
    ensures Entry(u, t) == Some(1) && 1 !in u.onDisk
  {
    var a, s1 := CanRename(s, 0, 0);
    TempIsNotTarget(t, 7, 1);
    var b;
    b, u := CanRename(s1, 1, 1);
    RunsJoin(s, a, s1, b, u);
    events := a + b;
  }

  lemma {:induction false} RunKeepsSound(s: State, events: seq<Event>, u: State)
    requires Sound(s) && Run(s, events, u)
    ensures Sound(u)
    decreases |events|
  {
    if |events| > 0 {
      StepKeepsSound(s, events[0]);
      RunKeepsSound(After(s, events[0]), events[1..], u);
    }
  }
}
