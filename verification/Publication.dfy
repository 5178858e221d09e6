/** What any run of writers means for the target: its readers, power failures, and what each writer may touch. */
module Publication {
  import opened Options
  import opened TempNames
  import opened AtomicWrite

  // ----- What readers of the target see

  /** An entry that is whole: the initial one with its content, or the payload of a writer that renamed onto it. */
  ghost predicate Whole(s0: State, s: State, t: Path, e: Option<nat>) {
    match e
    case None => Entry(s0, t) == None
    case Some(i) =>
      && i in s.data
      && (|| (Entry(s0, t) == e && i in s0.data && s.data[i] == s0.data[i])
          || exists id :: Brought(s, id, t, s.data[i]))
  }

  /** The writer has renamed a file with this content, its complete payload, over the target. */
  ghost predicate Brought(s: State, id: nat, t: Path, content: Content) {
    id in s.renamed && id in s.writers && s.writers[id].target == t && s.writers[id].payload == content
  }

  ghost predicate OnDisk(s: State, e: Option<nat>) {
    e.Some? ==> e.value in s.onDisk
  }

  /**
   * Whatever a reader finds at the target, now or after a power failure, is whole. If power
   * may fail, every writer of the target is durable and all of this has reached the disk.
   */
  ghost predicate Published(s0: State, s: State, t: Path, lossy: bool) {
    && (forall e :: e in Possible(s, t) ==> Whole(s0, s, t, e) && (lossy ==> OnDisk(s, e)))
    && (lossy ==> forall id :: id in s.writers && s.writers[id].target == t ==> s.writers[id].durable)
  }

  ghost predicate Allowed(e: Event, t: Path, lossy: bool) {
    && (e.PowerLoss? ==> lossy)
    && (lossy && e.Start? && e.writer.target == t ==> e.writer.durable)
  }

  /** Writers keep their target, payload and kind. */
  lemma WritersStay(s: State, e: Event, id: nat)
    requires Enabled(s, e) && id in s.writers
    ensures id in After(s, e).writers
    ensures var v, w := s.writers[id], After(s, e).writers[id];
      w.pid == v.pid && w.target == v.target && w.payload == v.payload && w.durable == v.durable
    ensures id in s.renamed ==> id in After(s, e).renamed
  {
  }

  lemma WholeStays(s0: State, s: State, e: Event, t: Path, entry: Option<nat>)
    requires Enabled(s, e) && Whole(s0, s, t, entry)
    requires entry.Some? ==> entry.value in After(s, e).data && After(s, e).data[entry.value] == s.data[entry.value]
    ensures Whole(s0, After(s, e), t, entry)
  {
    if entry.Some? {
      if id :| Brought(s, id, t, s.data[entry.value]) {
        WritersStay(s, e, id);
        assert Brought(After(s, e), id, t, s.data[entry.value]);
      }
    }
  }

  /** No writer's step touches the content of a file that is, or was, at a target. */
  lemma ContentStays(s: State, id: nat, step: Step, t: Path, i: nat)
    requires Sound(s) && Enabled(s, Act(id, step)) && !TempShaped(t) && Some(i) in Possible(s, t)
    ensures var u := Effect(s, s.writers[id], step);
      i in s.data && i in u.data && u.data[i] == s.data[i] && (i in s.onDisk ==> i in u.onDisk)
  {
    var w := s.writers[id];
    assert WriterSound(s, w);
    if Holding(w.phase) {
      assert HoldsOwnFile(s, w) && TempShaped(Temp(w));
    }
  }

  /** An entry a target may have after a call, it may have had before, or it is the file just renamed. */
  lemma ActLeavesWhole(s0: State, s: State, id: nat, step: Step, t: Path, lossy: bool, entry: Option<nat>)
    requires Sound(s) && Enabled(s, Act(id, step)) && !TempShaped(t)
    requires Published(s0, s, t, lossy) && entry in Possible(After(s, Act(id, step)), t)
    ensures var u := After(s, Act(id, step)); Whole(s0, u, t, entry) && (lossy ==> OnDisk(u, entry))
  {
    var w, u := s.writers[id], After(s, Act(id, step));
    assert WriterSound(s, w);
    if Named(w.phase) {
      assert TempShaped(Temp(w));
    }
    EffectOnEntries(s, w, step, t);
    if entry in Possible(s, t) {
      if entry.Some? {
        ContentStays(s, id, step, t, entry.value);
      }
      WholeStays(s0, s, Act(id, step), t, entry);
    } else {
      assert step.Replace? && t == w.target && entry == Some(w.phase.inode);
      assert Brought(u, id, t, u.data[w.phase.inode]);
    }
  }

  lemma ActKeepsPublished(s0: State, s: State, id: nat, step: Step, t: Path, lossy: bool)
    requires Sound(s) && Enabled(s, Act(id, step)) && !TempShaped(t)
    requires Published(s0, s, t, lossy)
    ensures Published(s0, After(s, Act(id, step)), t, lossy)
  {
    var u := After(s, Act(id, step));
    forall entry | entry in Possible(u, t)
      ensures Whole(s0, u, t, entry) && (lossy ==> OnDisk(u, entry))
    {
      ActLeavesWhole(s0, s, id, step, t, lossy, entry);
    }
  }

  lemma PowerLossKeepsPublished(s0: State, s: State, e: Event, t: Path)
    requires Sound(s) && Enabled(s, e) && e.PowerLoss? && Published(s0, s, t, true)
    ensures Published(s0, After(s, e), t, true)
  {
    var u := After(s, e);
    assert Entry(u, t) in Possible(s, t);
    WholeStays(s0, s, e, t, Entry(u, t));
  }

  lemma StepKeepsPublished(s0: State, s: State, e: Event, t: Path, lossy: bool)
    requires Sound(s) && Enabled(s, e) && Allowed(e, t, lossy) && !TempShaped(t)
    requires Published(s0, s, t, lossy)
    ensures Published(s0, After(s, e), t, lossy)
  {
    match e
    case Act(id, step) => ActKeepsPublished(s0, s, id, step, t, lossy);
    case PowerLoss(_, _) => PowerLossKeepsPublished(s0, s, e, t);
    case _ =>
      assert Possible(After(s, e), t) == Possible(s, t);
      forall entry | entry in Possible(s, t)
        ensures Whole(s0, After(s, e), t, entry)
      {
        WholeStays(s0, s, e, t, entry);
      }
  }

  lemma {:induction false} RunKeepsPublished(s0: State, s: State, events: seq<Event>, u: State, t: Path, lossy: bool)
    requires Run(s, events, u) && Sound(s) && !TempShaped(t) && Published(s0, s, t, lossy)
    requires forall k :: 0 <= k < |events| ==> Allowed(events[k], t, lossy)
    ensures Sound(u) && Published(s0, u, t, lossy)
    decreases |events|
  {
    if |events| > 0 {
      StepKeepsSound(s, events[0]);
      StepKeepsPublished(s0, s, events[0], t, lossy);
      RunKeepsPublished(s0, After(s, events[0]), events[1..], u, t, lossy);
    }
  }

  /** Before any writer has started, with the target's directory in step with the disk. */
  ghost predicate Initial(s: State, t: Path) {
    s.writers == map[] && s.renamed == {} && Closed(s) && Past(s, t) == {} && OnDisk(s, Entry(s, t))
  }

  /**
   * With any number of writers, each failing or killed at any call, the target always has
   * its initial content or the complete content of a writer that renamed it there. If all
   * its writers are durable this also holds through power failures.
   */
  lemma TargetIsAlwaysWhole(s0: State, events: seq<Event>, s: State, t: Path, lossy: bool)
    requires Initial(s0, t) && Run(s0, events, s) && !TempShaped(t)
    requires forall k :: 0 <= k < |events| ==> Allowed(events[k], t, lossy)
    ensures Sound(s) && Published(s0, s, t, lossy)
    ensures Whole(s0, s, t, Entry(s, t))
    ensures forall id :: id in s.renamed ==> Act(id, Replace) in events
  {
    RunKeepsPublished(s0, s0, events, s, t, lossy);
    forall id | id in s.renamed
      ensures Act(id, Replace) in events
    {
      RenamedByReplacing(s0, events, s, id);
    }
  }

  lemma {:induction false} RenamedByReplacing(s: State, events: seq<Event>, u: State, id: nat)
    requires Run(s, events, u) && id !in s.renamed && id in u.renamed
    ensures Act(id, Replace) in events
    decreases |events|
  {
    if |events| > 0 && events[0] != Act(id, Replace) {
      RenamedByReplacing(After(s, events[0]), events[1..], u, id);
    }
  }

  /** A file nobody is writing to any more. */
  ghost predicate Finished(s: State, i: nat) {
    i in s.data && forall id :: id in s.writers && Holding(s.writers[id].phase) ==> s.writers[id].phase.inode != i
  }

  lemma TargetIsFinished(s: State, t: Path, i: nat)
    requires Sound(s) && !TempShaped(t) && Some(i) in Possible(s, t)
    ensures Finished(s, i)
  {
    forall id | id in s.writers && Holding(s.writers[id].phase)
      ensures s.writers[id].phase.inode != i
    {
      assert WriterSound(s, s.writers[id]) && TempShaped(Temp(s.writers[id]));
    }
  }

  lemma {:induction false} FinishedForGood(s: State, events: seq<Event>, u: State, i: nat)
    requires Run(s, events, u) && Finished(s, i)
    requires forall k :: 0 <= k < |events| ==> !events[k].PowerLoss?
    ensures Finished(u, i) && u.data[i] == s.data[i]
    decreases |events|
  {
    if |events| > 0 {
      FinishedStays(s, events[0], i);
      FinishedForGood(After(s, events[0]), events[1..], u, i);
    }
  }

  /** A reader that opened the target keeps seeing the version it opened, replaced or not. */
  lemma {:induction false} ReaderKeepsVersion(s: State, events: seq<Event>, u: State, t: Path, i: nat)
    requires Sound(s) && Run(s, events, u) && !TempShaped(t) && Entry(s, t) == Some(i)
    requires forall k :: 0 <= k < |events| ==> !events[k].PowerLoss?
    ensures i in s.data && i in u.data && u.data[i] == s.data[i]
  {
    assert Entry(s, t) in Possible(s, t);
    TargetIsFinished(s, t, i);
    FinishedForGood(s, events, u, i);
  }

  lemma FinishedStays(s: State, e: Event, i: nat)
    requires Enabled(s, e) && Finished(s, i) && !e.PowerLoss?
    ensures Finished(After(s, e), i) && After(s, e).data[i] == s.data[i]
  {
    var t := After(s, e);
    if e.Act? {
      forall id | id in t.writers && Holding(t.writers[id].phase)
        ensures t.writers[id].phase.inode != i
      {
        assert id in s.writers;
      }
    }
  }

  // ----- What a writer may touch

  /**
   * A writer's step leaves every other path alone, and every content that is not in its own
   * temporary file. It creates only where nothing was, with a new file; it renames and
   * removes only the file it created.
   */
  lemma TouchesOnlyItsOwn(s: State, id: nat, step: Step)
    requires Sound(s) && Enabled(s, Act(id, step))
    ensures var w, t := s.writers[id], After(s, Act(id, step));
      && (forall p :: p != w.target && (Named(w.phase) ==> p != Temp(w)) ==> Entry(t, p) == Entry(s, p))
      && (!step.Replace? ==> Entry(t, w.target) == Entry(s, w.target))
      && (forall i :: i in s.data ==>
            i in t.data
            && (t.data[i] == s.data[i] || (Holding(w.phase) && i == w.phase.inode && OnlyAt(s, i, Temp(w)))))
      && (step.Create? ==> Entry(s, Temp(w)) == None && step.inode !in s.data)
      && (step.Replace? ==> Entry(s, Temp(w)) == Some(w.phase.inode) && s.data[w.phase.inode] == w.payload)
      && (step.Remove? ==> Entry(s, Temp(w)) == None || Entry(s, Temp(w)) == Some(w.phase.inode))
  {
    assert WriterSound(s, s.writers[id]);
    TouchesOwnEntries(s, id, step);
    TouchesOwnContent(s, id, step);
  }

  lemma TouchesOwnEntries(s: State, id: nat, step: Step)
    requires Enabled(s, Act(id, step))
    ensures var w, t := s.writers[id], After(s, Act(id, step));
      && (forall p :: p != w.target && (Named(w.phase) ==> p != Temp(w)) ==> Entry(t, p) == Entry(s, p))
      && (!step.Replace? ==> Entry(t, w.target) == Entry(s, w.target))
  {
    var w, t := s.writers[id], After(s, Act(id, step));
    if Named(w.phase) {
      TempIsNotTarget(w.target, w.pid, w.phase.suffix);
    }
    forall p | p != w.target && (Named(w.phase) ==> p != Temp(w))
      ensures Entry(t, p) == Entry(s, p)
    {
      EffectOnEntries(s, w, step, p);
    }
    EffectOnEntries(s, w, step, w.target);
  }

  lemma TouchesOwnContent(s: State, id: nat, step: Step)
    requires Sound(s) && Enabled(s, Act(id, step))
    ensures var w, t := s.writers[id], After(s, Act(id, step));
      forall i :: i in s.data ==>
        i in t.data
        && (t.data[i] == s.data[i] || (Holding(w.phase) && i == w.phase.inode && OnlyAt(s, i, Temp(w))))
  {
    assert WriterSound(s, s.writers[id]);
  }

  ghost predicate Replaces(s: State, e: Event, t: Path) {
    e.Act? && e.step.Replace? && e.id in s.writers && s.writers[e.id].target == t
  }

  ghost predicate SameTarget(s: State, u: State, t: Path) {
    && Entry(u, t) == Entry(s, t)
    && (Entry(s, t).Some? ==> var i := Entry(s, t).value; i in s.data && i in u.data && u.data[i] == s.data[i])
  }

  /** Only a replacing call and a power failure change the target. */
  lemma OnlyReplaceChangesTarget(s: State, e: Event, t: Path)
    requires Sound(s) && Enabled(s, e) && !TempShaped(t)
    requires !Replaces(s, e, t) && !e.PowerLoss?
    ensures SameTarget(s, After(s, e), t) && Possible(After(s, e), t) <= Possible(s, t)
  {
    assert Entry(s, t) in Possible(s, t);
    if e.Act? {
      var w := s.writers[e.id];
      assert WriterSound(s, w);
      if Named(w.phase) {
        assert TempShaped(Temp(w));
      }
      EffectOnEntries(s, w, e.step, t);
      if Entry(s, t).Some? {
        ContentStays(s, e.id, e.step, t, Entry(s, t).value);
      }
    }
  }

  /** A run in which nobody replaces the target. */
  ghost predicate Quiet(s: State, events: seq<Event>, t: Path)
    decreases |events|
  {
    |events| == 0 ||
    (Enabled(s, events[0]) && !Replaces(s, events[0], t) && Quiet(After(s, events[0]), events[1..], t))
  }

  /** The target's entry and its content have reached the disk. */
  ghost predicate Secured(s: State, t: Path) {
    Past(s, t) == {} && OnDisk(s, Entry(s, t))
  }

  /** A writer that fails or dies before it replaces leaves the target as it was. */
  lemma {:induction false} QuietRunKeepsTarget(s: State, events: seq<Event>, u: State, t: Path)
    requires Sound(s) && !TempShaped(t) && Run(s, events, u) && Quiet(s, events, t)
    requires Secured(s, t) || forall k :: 0 <= k < |events| ==> !events[k].PowerLoss?
    ensures SameTarget(s, u, t) && (Secured(s, t) ==> Secured(u, t))
    decreases |events|
  {
    if |events| == 0 {
      assert Entry(s, t) in Possible(s, t);
    } else {
      StepKeepsSound(s, events[0]);
      QuietStep(s, events[0], t);
      QuietRunKeepsTarget(After(s, events[0]), events[1..], u, t);
    }
  }

  lemma QuietStep(s: State, e: Event, t: Path)
    requires Sound(s) && Enabled(s, e) && !TempShaped(t) && !Replaces(s, e, t)
    requires Secured(s, t) || !e.PowerLoss?
    ensures SameTarget(s, After(s, e), t) && (Secured(s, t) ==> Secured(After(s, e), t))
  {
    var u := After(s, e);
    if e.PowerLoss? {
      assert Possible(s, t) == {Entry(s, t)};
      assert Entry(u, t) in Possible(s, t);
      assert Entry(s, t) in Possible(s, t);
    } else {
      OnlyReplaceChangesTarget(s, e, t);
      if Secured(s, t) {
        QuietStepSecures(s, e, t);
      }
    }
  }

  lemma QuietStepSecures(s: State, e: Event, t: Path)
    requires Sound(s) && Enabled(s, e) && !TempShaped(t) && !Replaces(s, e, t) && !e.PowerLoss? && Secured(s, t)
    ensures Secured(After(s, e), t)
  {
    var u := After(s, e);
    if e.Act? {
      var w := s.writers[e.id];
      assert WriterSound(s, w);
      if Named(w.phase) {
        assert TempShaped(Temp(w));
      }
      EffectOnEntries(s, w, e.step, t);
      if Entry(s, t).Some? {
        ContentStays(s, e.id, e.step, t, Entry(s, t).value);
      }
      assert t !in s.past || s.past[t] == {};
    }
  }

  lemma {:induction false} WritersOfRunStay(s: State, events: seq<Event>, u: State)
    requires Run(s, events, u)
    ensures forall id :: id in s.writers ==>
              id in u.writers && u.writers[id].target == s.writers[id].target
              && u.writers[id].payload == s.writers[id].payload
    ensures s.renamed <= u.renamed
    decreases |events|
  {
    if |events| > 0 {
      forall id | id in s.writers
        ensures id in After(s, events[0]).writers
        ensures After(s, events[0]).writers[id].target == s.writers[id].target
        ensures After(s, events[0]).writers[id].payload == s.writers[id].payload
      {
        WritersStay(s, events[0], id);
      }
      WritersOfRunStay(After(s, events[0]), events[1..], u);
    }
  }

  /** A writer that had a file and reports failure has tried to remove it. */
  lemma {:induction false} FailedWriterCleansUp(s: State, events: seq<Event>, u: State, id: nat)
    requires Run(s, events, u) && id in s.writers && id in u.writers
    requires HasFile(s.writers[id].phase)
    requires u.writers[id].phase == Done(false)
    ensures Act(id, Remove) in events || Act(id, RemoveFails) in events
    decreases |events|
  {
    if |events| > 0 {
      var t := After(s, events[0]);
      StepTowardsRemoval(s, events[0], id);
      if HasFile(t.writers[id].phase) {
        FailedWriterCleansUp(t, events[1..], u, id);
      } else if events[0] != Act(id, Remove) && events[0] != Act(id, RemoveFails) {
        OverStays(t, events[1..], u, id);
      }
    }
  }

  /** The phases from the creation of the file to its removal. */
  predicate HasFile(ph: Phase) {
    Holding(ph) || ph.Replaced? || ph.Removing?
  }

  /** Only an attempt at removal leads from having a file to a reported failure. */
  lemma StepTowardsRemoval(s: State, e: Event, id: nat)
    requires Enabled(s, e) && id in s.writers && HasFile(s.writers[id].phase)
    ensures id in After(s, e).writers
    ensures var ph := After(s, e).writers[id].phase;
      HasFile(ph) || e == Act(id, Remove) || e == Act(id, RemoveFails) || ph == Done(true) || ph == Dead
  {
  }

  lemma {:induction false} OverStays(s: State, events: seq<Event>, u: State, id: nat)
    requires Run(s, events, u) && id in s.writers && Over(s.writers[id].phase)
    ensures id in u.writers && u.writers[id].phase == s.writers[id].phase
    decreases |events|
  {
    if |events| > 0 {
      OverStays(After(s, events[0]), events[1..], u, id);
    }
  }
}
