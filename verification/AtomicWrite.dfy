/**
 * Publishing a file by writing a temporary neighbour and renaming it over the target, with
 * any number of writers in any number of processes. Every file-system call is one step;
 * a call may fail, a process may die between calls and the machine may lose power.
 */
module AtomicWrite {
  import opened Options
  import opened TempNames

  type Content = seq<int>

  const TEMP_CREATE_ATTEMPTS := 16

  datatype Phase =
    | Choosing(attempts: nat)                // about to take a temporary name
    | Creating(attempts: nat, suffix: nat)   // about to create that file, exclusively
    | Writing(suffix: nat, inode: nat)       // the caller's closure has the file
    | Written(suffix: nat, inode: nat)       // closure returned and flushed
    | Ready(suffix: nat, inode: nat)         // synced if durable, closed, about to replace
    | Replaced(suffix: nat, inode: nat)      // durable writers sync the directory next
    | Removing(suffix: nat, inode: nat)      // an earlier call failed; about to remove the file
    | Done(ok: bool)
    | Dead                                   // the process is gone

  datatype Writer = Writer(pid: nat, target: Path, durable: bool, payload: Content, phase: Phase)

  /**
   * `paths` and `data` are what running programs see. `onDisk` are the inodes whose content
   * would survive a power failure; `past` are entries a path has had since its directory
   * was last synced, any of which a power failure may bring back; `renamed` are the writers
   * that have renamed their file over their target.
   */
  datatype State = State(
    paths: map<Path, nat>,
    data: map<nat, Content>,
    onDisk: set<nat>,
    past: map<Path, set<Option<nat>>>,
    counters: map<nat, nat>,
    writers: map<nat, Writer>,
    renamed: set<nat>)

  function Entry(s: State, p: Path): Option<nat> {
    if p in s.paths then Some(s.paths[p]) else None
  }

  function Past(s: State, p: Path): set<Option<nat>> {
    if p in s.past then s.past[p] else {}
  }

  /** The entries a power failure may leave at the path. */
  function Possible(s: State, p: Path): set<Option<nat>> {
    Past(s, p) + {Entry(s, p)}
  }

  function Counter(s: State, pid: nat): nat {
    if pid in s.counters then s.counters[pid] else 0
  }

  predicate Named(ph: Phase) {
    ph.Creating? || ph.Writing? || ph.Written? || ph.Ready? || ph.Replaced? || ph.Removing?
  }

  /** Phases in which the writer's file is its temporary file. */
  predicate Holding(ph: Phase) {
    ph.Writing? || ph.Written? || ph.Ready?
  }

  function Temp(w: Writer): Path
    requires Named(w.phase)
  {
    TempPath(w.target, w.pid, w.phase.suffix)
  }

  // ----- Steps

  /** One call of one writer. */
  datatype Step =
    | TakeName
    | GiveUp
    | NameTaken
    | CreateFails
    | Create(inode: nat)
    | Write(content: Content)
    | FinishWrite
    | Settle
    | Fail
    | Replace
    | SyncDirectory
    | SyncDirectoryFails
    | Remove
    | RemoveFails

  datatype Event =
    | Start(id: nat, writer: Writer)
    | Act(id: nat, step: Step)
    | Kill(pid: nat)
    | PowerLoss(found: map<Path, nat>, left: map<nat, Content>)

  /** A directory entry changes for running programs; on disk either version may be found. */
  function SetEntry(s: State, p: Path, e: Option<nat>): State {
    s.(paths := if e.Some? then s.paths[p := e.value] else s.paths - {p},
       past := s.past[p := Possible(s, p)])
  }

  function SyncedDirectory(s: State, dir: string): State {
    s.(past := map p | p in s.past && p.dir != dir :: s.past[p])
  }

  predicate Over(ph: Phase) {
    ph.Done? || ph.Dead?
  }

  function Killed(w: Writer): Writer {
    if Over(w.phase) then w else w.(phase := Dead)
  }

  predicate CanAct(s: State, w: Writer, step: Step) {
    match step
    case TakeName => w.phase.Choosing? && w.phase.attempts < TEMP_CREATE_ATTEMPTS
    case GiveUp => w.phase.Choosing? && w.phase.attempts == TEMP_CREATE_ATTEMPTS
    case NameTaken => w.phase.Creating? && Temp(w) in s.paths
    case CreateFails => w.phase.Creating?
    case Create(inode) => w.phase.Creating? && Temp(w) !in s.paths && inode !in s.data
    case Write(_) => w.phase.Writing?
    case FinishWrite => w.phase.Writing? && w.phase.inode in s.data && s.data[w.phase.inode] == w.payload
    case Settle => w.phase.Written?
    case Fail => Holding(w.phase)
    case Replace => w.phase.Ready? && Temp(w) in s.paths
    case SyncDirectory => w.phase.Replaced?
    case SyncDirectoryFails => w.phase.Replaced?
    case Remove => w.phase.Removing?
    case RemoveFails => w.phase.Removing?
  }

  /** The writer after its step. */
  function Moved(s: State, w: Writer, step: Step): Writer
    requires CanAct(s, w, step)
  {
    var ph := w.phase;
    w.(phase :=
      match step
      case TakeName => Creating(ph.attempts, Counter(s, w.pid))
      case GiveUp => Done(false)
      case NameTaken => Choosing(ph.attempts + 1)
      case CreateFails => Done(false)
      case Create(inode) => Writing(ph.suffix, inode)
      case Write(_) => ph
      case FinishWrite => Written(ph.suffix, ph.inode)
      case Settle => Ready(ph.suffix, ph.inode)
      case Fail => Removing(ph.suffix, ph.inode)
      case Replace => if w.durable then Replaced(ph.suffix, ph.inode) else Done(true)
      case SyncDirectory => Done(true)
      case SyncDirectoryFails => Removing(ph.suffix, ph.inode)
      case Remove => Done(false)
      case RemoveFails => Done(false))
  }

  /** The file system and the counters after a writer's step. */
  function Effect(s: State, w: Writer, step: Step): State
    requires CanAct(s, w, step)
  {
    match step
    case TakeName => s.(counters := s.counters[w.pid := Counter(s, w.pid) + 1])
    case Create(inode) =>
      SetEntry(s, Temp(w), Some(inode)).(data := s.data[inode := []], onDisk := s.onDisk - {inode})
    case Write(content) =>
      s.(data := s.data[w.phase.inode := content], onDisk := s.onDisk - {w.phase.inode})
    case Settle => if w.durable then s.(onDisk := s.onDisk + {w.phase.inode}) else s
    case Replace => SetEntry(SetEntry(s, w.target, Entry(s, Temp(w))), Temp(w), None)
    case SyncDirectory => SyncedDirectory(s, w.target.dir)
    case Remove => if Temp(w) in s.paths then SetEntry(s, Temp(w), None) else s
    case _ => s
  }

  ghost predicate Enabled(s: State, e: Event) {
    match e
    case Start(id, w) => id !in s.writers && w.phase == Choosing(0) && !TempShaped(w.target)
    case Act(id, step) => id in s.writers && CanAct(s, s.writers[id], step)
    case Kill(pid) => true
    case PowerLoss(found, left) =>
      && (forall p :: (if p in found then Some(found[p]) else None) in Possible(s, p))
      && left.Keys == s.data.Keys
      && (forall i :: i in s.data && i in s.onDisk ==> left[i] == s.data[i])
  }

  function After(s: State, e: Event): State
    requires Enabled(s, e)
  {
    match e
    case Start(id, w) => s.(writers := s.writers[id := w])
    case Act(id, step) =>
      var w := s.writers[id];
      Effect(s, w, step).(writers := s.writers[id := Moved(s, w, step)],
                          renamed := if step.Replace? then s.renamed + {id} else s.renamed)
    case Kill(pid) =>
      s.(counters := s.counters - {pid},
         writers := map id | id in s.writers ::
           if s.writers[id].pid == pid then Killed(s.writers[id]) else s.writers[id])
    case PowerLoss(found, left) =>
      State(found, left, s.onDisk, map[], map[], map id | id in s.writers :: Killed(s.writers[id]), s.renamed)
  }

  /** Any number of steps. */
  ghost predicate Run(s: State, events: seq<Event>, t: State)
    decreases |events|
  {
    if |events| == 0 then s == t
    else Enabled(s, events[0]) && Run(After(s, events[0]), events[1..], t)
  }

  lemma {:induction false} RunThenStep(s: State, events: seq<Event>, t: State, e: Event)
    requires Run(s, events, t) && Enabled(t, e)
    ensures Run(s, events + [e], After(t, e))
    decreases |events|
  {
    if |events| == 0 {
      assert events + [e] == [e];
      assert [e][1..] == [];
    } else {
      assert (events + [e])[1..] == events[1..] + [e];
      RunThenStep(After(s, events[0]), events[1..], t, e);
    }
  }

  // ----- What every step keeps

  /** Every name in use was handed out by its process's counter, to one writer only. */
  ghost predicate NamesHandedOut(s: State) {
    && (forall id :: id in s.writers && Named(s.writers[id].phase) ==>
          s.writers[id].phase.suffix < Counter(s, s.writers[id].pid))
    && (forall a, b :: a in s.writers && b in s.writers && a != b ==> NamesDiffer(s.writers[a], s.writers[b]))
  }

  predicate NamesDiffer(v: Writer, w: Writer) {
    Named(v.phase) && Named(w.phase) && v.pid == w.pid ==> v.phase.suffix != w.phase.suffix
  }

  /** Every inode that a path has, or may be found to have had, exists. */
  ghost predicate Closed(s: State) {
    forall p, i :: Some(i) in Possible(s, p) ==> i in s.data
  }

  /** No path but `own` leads, or may be found to lead, to the inode. */
  ghost predicate OnlyAt(s: State, i: nat, own: Path) {
    forall p :: Some(i) in Possible(s, p) ==> p == own
  }

  ghost predicate HoldsOwnFile(s: State, w: Writer)
    requires Holding(w.phase)
  {
    && Entry(s, Temp(w)) == Some(w.phase.inode)
    && w.phase.inode in s.data
    && OnlyAt(s, w.phase.inode, Temp(w))
    && (w.phase.Written? || w.phase.Ready? ==> s.data[w.phase.inode] == w.payload)
    && (w.phase.Ready? && w.durable ==> w.phase.inode in s.onDisk)
  }

  /** What a named writer may find under its temporary name: its own file or nothing. */
  ghost predicate FindsOwnFile(s: State, w: Writer)
    requires Named(w.phase)
  {
    && (w.phase.Removing? ==> Entry(s, Temp(w)).None? || Entry(s, Temp(w)) == Some(w.phase.inode))
    && (w.phase.Replaced? ==> Entry(s, Temp(w)).None?)
  }

  ghost predicate WriterSound(s: State, w: Writer) {
    && !TempShaped(w.target)
    && (Holding(w.phase) ==> HoldsOwnFile(s, w))
    && (Named(w.phase) ==> FindsOwnFile(s, w))
  }

  ghost predicate Sound(s: State) {
    && NamesHandedOut(s)
    && Closed(s)
    && forall id :: id in s.writers ==> WriterSound(s, s.writers[id])
  }

  /** Named writers have different temporary files. */
  lemma TempsDiffer(s: State, a: nat, b: nat)
    requires NamesHandedOut(s) && a in s.writers && b in s.writers && a != b
    requires Named(s.writers[a].phase) && Named(s.writers[b].phase)
    ensures Temp(s.writers[a]) != Temp(s.writers[b])
  {
    var v, w := s.writers[a], s.writers[b];
    if Temp(v) == Temp(w) {
      TempPathInjective(v.target, v.pid, v.phase.suffix, w.target, w.pid, w.phase.suffix);
    }
  }

  lemma InodesDiffer(s: State, a: nat, b: nat)
    requires Sound(s) && a in s.writers && b in s.writers && a != b
    requires Holding(s.writers[a].phase) && Holding(s.writers[b].phase)
    ensures s.writers[a].phase.inode != s.writers[b].phase.inode
  {
    TempsDiffer(s, a, b);
    var v, w := s.writers[a], s.writers[b];
    assert HoldsOwnFile(s, v) && HoldsOwnFile(s, w);
    assert Some(v.phase.inode) in Possible(s, Temp(v));
  }

  /** A writer whose name, file and inode are left alone stays sound. */
  lemma LeftAlone(s: State, t: State, v: Writer)
    requires WriterSound(s, v)
    requires Named(v.phase) ==> Entry(t, Temp(v)) == Entry(s, Temp(v))
    requires Holding(v.phase) ==>
               var i := v.phase.inode;
               && i in s.data && i in t.data && t.data[i] == s.data[i] && (i in s.onDisk ==> i in t.onDisk)
               && forall p :: Some(i) in Possible(t, p) ==> Some(i) in Possible(s, p)
    ensures WriterSound(t, v)
  {
    if Holding(v.phase) {
      assert HoldsOwnFile(s, v);
      assert OnlyAt(t, v.phase.inode, Temp(v));
    }
  }

  lemma EffectOnEntries(s: State, w: Writer, step: Step, p: Path)
    requires CanAct(s, w, step)
    ensures var t := Effect(s, w, step);
      && (step.Create? && p == Temp(w) ==>
            Entry(t, p) == Some(step.inode) && Possible(t, p) == Possible(s, p) + {Some(step.inode)})
      && (step.Replace? && p == Temp(w) ==>
            Entry(t, p) == None && Possible(t, p) <= Possible(s, p) + {None, Entry(s, p)})
      && (step.Replace? && p == w.target ==>
            Entry(t, p) == Entry(s, Temp(w)) && Possible(t, p) == Possible(s, p) + {Entry(s, Temp(w))})
      && (step.Remove? && p == Temp(w) ==> Entry(t, p) == None && Possible(t, p) <= Possible(s, p) + {None})
      && (!(step.Create? && p == Temp(w)) && !(step.Remove? && p == Temp(w))
          && !(step.Replace? && (p == Temp(w) || p == w.target)) ==>
            Entry(t, p) == Entry(s, p) && Possible(t, p) <= Possible(s, p))
  {
    if Named(w.phase) {
      TempIsNotTarget(w.target, w.pid, w.phase.suffix);
    }
  }

  lemma ActKeepsOther(s: State, id: nat, step: Step, v: nat)
    requires Sound(s) && Enabled(s, Act(id, step)) && v in s.writers && v != id
    ensures WriterSound(Effect(s, s.writers[id], step), s.writers[v])
  {
    var w, other, t := s.writers[id], s.writers[v], Effect(s, s.writers[id], step);
    assert WriterSound(s, w) && WriterSound(s, other);
    if Named(other.phase) {
      if Named(w.phase) {
        TempsDiffer(s, id, v);
      }
      assert TempShaped(Temp(other)) && Temp(other) != w.target;
      EffectOnEntries(s, w, step, Temp(other));
    }
    if Holding(other.phase) {
      var i := other.phase.inode;
      if Holding(w.phase) {
        InodesDiffer(s, id, v);
      }
      forall p | Some(i) in Possible(t, p)
        ensures Some(i) in Possible(s, p)
      {
        EffectOnEntries(s, w, step, p);
      }
    }
    LeftAlone(s, t, other);
  }

  lemma ActKeepsSelf(s: State, id: nat, step: Step)
    requires Sound(s) && Enabled(s, Act(id, step))
    ensures WriterSound(Effect(s, s.writers[id], step), Moved(s, s.writers[id], step))
  {
    var w := s.writers[id];
    var t, w' := Effect(s, w, step), Moved(s, w, step);
    assert WriterSound(s, w);
    if Named(w.phase) {
      EffectOnEntries(s, w, step, Temp(w));
    }
    if Holding(w'.phase) {
      var i := w'.phase.inode;
      forall p | Some(i) in Possible(t, p)
        ensures p == Temp(w)
      {
        EffectOnEntries(s, w, step, p);
      }
      assert OnlyAt(t, i, Temp(w'));
    }
  }

  lemma ActKeepsNames(s: State, id: nat, step: Step)
    requires Sound(s) && Enabled(s, Act(id, step))
    ensures NamesHandedOut(After(s, Act(id, step)))
  {
    var t := After(s, Act(id, step));
    forall a, b | a in t.writers && b in t.writers && a != b
      ensures NamesDiffer(t.writers[a], t.writers[b])
    {
      MovedName(s, id, step, a);
      MovedName(s, id, step, b);
      assert NamesDiffer(s.writers[a], s.writers[b]);
    }
    forall a | a in t.writers && Named(t.writers[a].phase)
      ensures t.writers[a].phase.suffix < Counter(t, t.writers[a].pid)
    {
      MovedName(s, id, step, a);
    }
  }

  /** A step keeps a writer's name or takes the next one its process hands out. */
  lemma MovedName(s: State, id: nat, step: Step, a: nat)
    requires NamesHandedOut(s) && Enabled(s, Act(id, step)) && a in s.writers
    ensures var v, w, t := s.writers[a], After(s, Act(id, step)).writers[a], After(s, Act(id, step));
      && w.pid == v.pid && Counter(t, v.pid) >= Counter(s, v.pid)
      && (Named(w.phase) ==>
            || (Named(v.phase) && w.phase.suffix == v.phase.suffix)
            || (a == id && step.TakeName? && w.phase.suffix == Counter(s, v.pid) < Counter(t, v.pid)))
  {
  }

  lemma ActKeepsClosed(s: State, id: nat, step: Step)
    requires Sound(s) && Enabled(s, Act(id, step))
    ensures Closed(Effect(s, s.writers[id], step))
  {
    var w, t := s.writers[id], Effect(s, s.writers[id], step);
    assert WriterSound(s, w);
    forall p, i | Some(i) in Possible(t, p)
      ensures i in t.data
    {
      EffectOnEntries(s, w, step, p);
      if Named(w.phase) {
        assert Entry(s, Temp(w)) in Possible(s, Temp(w));
      }
    }
  }

  lemma ActKeepsWriter(s: State, id: nat, step: Step, v: nat)
    requires Sound(s) && Enabled(s, Act(id, step)) && v in s.writers
    ensures WriterSound(After(s, Act(id, step)), After(s, Act(id, step)).writers[v])
  {
    if v == id {
      ActKeepsSelf(s, id, step);
    } else {
      ActKeepsOther(s, id, step, v);
    }
    SameFiles(Effect(s, s.writers[id], step), After(s, Act(id, step)), After(s, Act(id, step)).writers[v]);
  }

  lemma ActKeepsSound(s: State, id: nat, step: Step)
    requires Sound(s) && Enabled(s, Act(id, step))
    ensures Sound(After(s, Act(id, step)))
  {
    var t := After(s, Act(id, step));
    ActKeepsNames(s, id, step);
    ActKeepsClosed(s, id, step);
    SameClosed(Effect(s, s.writers[id], step), t);
    forall v | v in t.writers
      ensures WriterSound(t, t.writers[v])
    {
      ActKeepsWriter(s, id, step, v);
    }
  }

  ghost predicate SameDisk(s: State, t: State) {
    s.(writers := t.writers, renamed := t.renamed) == t
  }

  lemma SameClosed(s: State, t: State)
    requires SameDisk(s, t) && Closed(s)
    ensures Closed(t)
  {
    assert forall p :: Possible(t, p) == Possible(s, p);
  }

  /** Soundness of a writer only looks at the file system. */
  lemma SameFiles(s: State, t: State, w: Writer)
    requires SameDisk(s, t) && WriterSound(s, w)
    ensures WriterSound(t, w)
  {
    LeftAlone(s, t, w);
  }

  /** Every step keeps every writer's file its own. */
  lemma StepKeepsSound(s: State, e: Event)
    requires Sound(s) && Enabled(s, e)
    ensures Sound(After(s, e))
  {
    match e
    case Start(id, w) => StartKeepsSound(s, id, w);
    case Act(id, step) => ActKeepsSound(s, id, step);
    case Kill(pid) => KillKeepsSound(s, pid);
    case PowerLoss(found, left) => PowerLossKeepsSound(s, found, left);
  }

  lemma StartKeepsSound(s: State, id: nat, w: Writer)
    requires Sound(s) && Enabled(s, Start(id, w))
    ensures Sound(After(s, Start(id, w)))
  {
    var t := After(s, Start(id, w));
    assert forall p :: Possible(t, p) == Possible(s, p);
    forall v | v in t.writers
      ensures WriterSound(t, t.writers[v])
    {
      if v != id {
        SameFiles(s, t, t.writers[v]);
      }
    }
    forall a, b | a in t.writers && b in t.writers && a != b
      ensures NamesDiffer(t.writers[a], t.writers[b])
    {
      if a != id && b != id {
        assert NamesDiffer(s.writers[a], s.writers[b]);
      }
    }
  }

  lemma PowerLossKeepsClosed(s: State, found: map<Path, nat>, left: map<nat, Content>)
    requires Closed(s) && Enabled(s, PowerLoss(found, left))
    ensures Closed(After(s, PowerLoss(found, left)))
  {
    var t := After(s, PowerLoss(found, left));
    forall p, i | Some(i) in Possible(t, p)
      ensures i in t.data
    {
      assert Entry(t, p) in Possible(s, p);
    }
  }

  lemma PowerLossKeepsSound(s: State, found: map<Path, nat>, left: map<nat, Content>)
    requires Sound(s) && Enabled(s, PowerLoss(found, left))
    ensures Sound(After(s, PowerLoss(found, left)))
  {
    var t := After(s, PowerLoss(found, left));
    PowerLossKeepsClosed(s, found, left);
    forall v | v in t.writers
      ensures WriterSound(t, t.writers[v]) && Over(t.writers[v].phase)
    {
      assert WriterSound(s, s.writers[v]);
    }
  }

  lemma KillKeepsWriter(s: State, pid: nat, v: nat)
    requires Sound(s) && v in s.writers
    ensures WriterSound(After(s, Kill(pid)), After(s, Kill(pid)).writers[v])
  {
    var t := After(s, Kill(pid));
    assert WriterSound(s, s.writers[v]);
    if s.writers[v].pid != pid || Over(s.writers[v].phase) {
      assert forall p :: Possible(t, p) == Possible(s, p);
      LeftAlone(s, t, s.writers[v]);
    }
  }

  lemma KillKeepsNames(s: State, pid: nat)
    requires NamesHandedOut(s)
    ensures NamesHandedOut(After(s, Kill(pid)))
  {
    var t := After(s, Kill(pid));
    forall a, b | a in t.writers && b in t.writers && a != b
      ensures NamesDiffer(t.writers[a], t.writers[b])
    {
      assert NamesDiffer(s.writers[a], s.writers[b]);
    }
  }

  lemma KillKeepsSound(s: State, pid: nat)
    requires Sound(s)
    ensures Sound(After(s, Kill(pid)))
  {
    var t := After(s, Kill(pid));
    assert forall p :: Possible(t, p) == Possible(s, p);
    KillKeepsNames(s, pid);
    forall v | v in t.writers
      ensures WriterSound(t, t.writers[v])
    {
      KillKeepsWriter(s, pid, v);
    }
  }
}
