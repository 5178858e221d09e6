/** The write helper as a program over a file system it shares with whoever ran before it. */
module FileSystem {
  import opened Options
  import opened TempNames
  import opened AtomicWrite
  import opened Publication

  /** The content running programs read at a path, if there is a file. */
  function ReadBack(s: State, p: Path): Option<Content> {
    if p in s.paths && s.paths[p] in s.data then Some(s.data[s.paths[p]]) else None
  }

  lemma StepKeepsReadBack(s: State, e: Event)
    requires Sound(s) && Enabled(s, e) && !e.PowerLoss?
    ensures forall t :: !TempShaped(t) && !Replaces(s, e, t) ==> ReadBack(After(s, e), t) == ReadBack(s, t)
  {
    forall t | !TempShaped(t) && !Replaces(s, e, t)
      ensures ReadBack(After(s, e), t) == ReadBack(s, t)
    {
      OnlyReplaceChangesTarget(s, e, t);
    }
  }

  /** The inode above all that are in use. */
  function NextInode(e: Event, next: nat): nat {
    if e.Act? && e.step.Create? && e.step.inode >= next then e.step.inode + 1 else next
  }

  lemma StepTakesInodes(s: State, e: Event, next: nat)
    requires Sound(s) && Enabled(s, e) && !e.PowerLoss? && forall i :: i in s.data ==> i < next
    ensures forall i :: i in After(s, e).data ==> i < NextInode(e, next)
  {
    if e.Act? {
      assert WriterSound(s, s.writers[e.id]);
    }
  }

  // ----- The calls of one write, in order

  function DraftCalls(id: nat, drafts: seq<Content>): seq<Event> {
    seq(|drafts|, k requires 0 <= k < |drafts| => Act(id, Write(drafts[k])))
  }

  /** Everything behind the exclusive creation, if no call fails. */
  function Script(id: nat, w: Writer, drafts: seq<Content>): seq<Event> {
    DraftCalls(id, drafts)
    + [Act(id, Write(w.payload)), Act(id, FinishWrite), Act(id, Settle), Act(id, Replace)]
    + if w.durable then [Act(id, SyncDirectory)] else []
  }

  /** Names taken from the counter that turned out to be in use. */
  function Collisions(id: nat, n: nat): seq<Event> {
    if n == 0 then [] else Collisions(id, n - 1) + [Act(id, TakeName), Act(id, NameTaken)]
  }

  /** How the search for a temporary name ends; no name so far is as good as exhausted. */
  datatype Naming = Free | Failed | Exhausted

  /** The attempt that ended the search. */
  function LastAttempt(id: nat, naming: Naming): seq<Event> {
    match naming
    case Free => [Act(id, TakeName)]
    case Failed => [Act(id, TakeName), Act(id, CreateFails)]
    case Exhausted => []
  }

  ghost predicate NamedAs(s: State, id: nat, naming: Naming, attempts: nat)
    requires id in s.writers
  {
    var ph := s.writers[id].phase;
    match naming
    case Free => ph.Creating? && Temp(s.writers[id]) !in s.paths
    case Failed => ph == Done(false)
    case Exhausted => ph == Choosing(attempts)
  }

  /** The first `n` calls of the script have been made. */
  ghost predicate Did(before: seq<Event>, script: seq<Event>, n: nat, log: seq<Event>) {
    n <= |script| && log == before + script[..n]
  }

  /** The call behind the first `n` failed. */
  ghost predicate Stopped(before: seq<Event>, script: seq<Event>, n: nat, id: nat, log: seq<Event>) {
    n < |script| &&
    log == before + script[..n] + [Act(id, if script[n] == Act(id, SyncDirectory) then SyncDirectoryFails else Fail)]
  }

  /** The call behind the first `n` failed, and one removal was attempted. */
  ghost predicate CleanedUp(before: seq<Event>, script: seq<Event>, n: nat, id: nat, log: seq<Event>) {
    exists removal :: removal in {Remove, RemoveFails} &&
      |log| > 0 && log[|log| - 1] == Act(id, removal) && Stopped(before, script, n, id, log[..|log| - 1])
  }

  lemma CleanedUpExtends(before: seq<Event>, script: seq<Event>, n: nat, id: nat, log: seq<Event>)
    requires CleanedUp(before, script, n, id, log)
    ensures before <= log
  {
    assert before <= log[..|log| - 1] <= log;
  }

  lemma DidNext(before: seq<Event>, script: seq<Event>, n: nat, log: seq<Event>)
    requires Did(before, script, n, log) && n < |script|
    ensures Did(before, script, n + 1, log + [script[n]])
  {
    assert script[..n + 1] == script[..n] + [script[n]];
  }

  /** The writer's temporary file holds its whole payload. */
  ghost predicate IsComplete(s: State, id: nat)
    requires id in s.writers
  {
    var w := s.writers[id];
    w.phase.Writing? && w.phase.inode in s.data && s.data[w.phase.inode] == w.payload
  }

  class Disk {
    var state: State
    var nextInode: nat
    /** Where this file system began, and every call made on it since. */
    ghost var origin: State
    ghost var log: seq<Event>

    ghost predicate Valid()
      reads this
    {
      && Sound(state)
      && (forall i :: i in state.data ==> i < nextInode)
      && Run(origin, log, state)
    }

    constructor (paths: map<Path, nat>, data: map<nat, Content>, nextInode: nat)
      requires forall p :: p in paths ==> paths[p] in data
      requires forall i :: i in data ==> i < nextInode
      ensures Valid() && state.paths == paths && state.data == data && state.writers == map[]
      ensures state == origin && log == []
    {
      state := State(paths, data, data.Keys, map[], map[], map[], {});
      this.nextInode := nextInode;
      origin := State(paths, data, data.Keys, map[], map[], map[], {});
      log := [];
    }

    /** One call, or one outside event. */
    method Take(e: Event)
      requires Valid() && Enabled(state, e) && !e.PowerLoss?
      modifies this
      ensures Valid() && state == After(old(state), e)
      ensures origin == old(origin) && log == old(log) + [e]
      ensures forall t :: !TempShaped(t) && !Replaces(old(state), e, t) ==>
                ReadBack(state, t) == ReadBack(old(state), t)
    {
      StepKeepsSound(state, e);
      RunThenStep(origin, log, state, e);
      StepKeepsReadBack(state, e);
      StepTakesInodes(state, e, nextInode);
      nextInode := NextInode(e, nextInode);
      state := After(state, e);
      log := log + [e];
    }

    /** One call of one writer, seen from its target and its file. */
    method Call(id: nat, step: Step)
      requires Valid() && id in state.writers && CanAct(state, state.writers[id], step)
      modifies this
      ensures Valid() && origin == old(origin) && log == old(log) + [Act(id, step)]
      ensures id in state.writers && state.writers[id] == Moved(old(state), old(state.writers[id]), step)
      ensures var w := old(state.writers[id]);
        && (step.Write? ==> w.phase.inode in state.data && state.data[w.phase.inode] == step.content)
        && ReadBack(state, w.target) == if step.Replace? then Some(w.payload) else ReadBack(old(state), w.target)
    {
      var w := state.writers[id];
      assert WriterSound(state, w);
      TouchesOnlyItsOwn(state, id, step);
      if Named(w.phase) {
        TempIsNotTarget(w.target, w.pid, w.phase.suffix);
      }
      Take(Act(id, step));
    }

    /**
     * The helper: up to sixteen temporary names, the caller's closure on the exclusively
     * created file, then replace. Any call may fail. On success the target has the payload;
     * on failure it is as before, unless only the directory sync behind the replace failed.
     */
    method WriteAtomic(id: nat, w: Writer, drafts: seq<Content>) returns (ok: bool)
      requires Valid() && Enabled(state, Start(id, w))
      modifies this
      ensures Valid() && origin == old(origin) && old(log) <= log
      ensures id in state.writers && state.writers[id] == w.(phase := Done(ok))
      ensures ok ==> ReadBack(state, w.target) == Some(w.payload)
      ensures !ok ==> || ReadBack(state, w.target) == ReadBack(old(state), w.target)
                      || (w.durable && ReadBack(state, w.target) == Some(w.payload))
    {
      Begin(id, w);
      var naming, _ := ChooseName(id, w);
      match naming
      case Exhausted =>
        Call(id, GiveUp);
        ok := false;
      case Failed => ok := false;
      case Free => ok := CreateAndWrite(id, w, drafts);
    }

    /**
     * Takes names from the counter until one is free, at most sixteen times; an error other than the
     * name being taken ends the search, whether the name is taken or not.
     */
    method ChooseName(id: nat, w: Writer) returns (naming: Naming, ghost collisions: nat)
      requires Valid() && id in state.writers && state.writers[id] == w && w.phase == Choosing(0)
      modifies this
      ensures Valid() && origin == old(origin)
      ensures if naming.Exhausted? then collisions == 16 else collisions < 16
      ensures log == old(log) + Collisions(id, collisions) + LastAttempt(id, naming)
      ensures id in state.writers && state.writers[id] == w.(phase := state.writers[id].phase)
      ensures NamedAs(state, id, naming, TEMP_CREATE_ATTEMPTS)
      ensures ReadBack(state, w.target) == ReadBack(old(state), w.target)
    {
      var attempts := 0;
      naming := Exhausted;
      while attempts < TEMP_CREATE_ATTEMPTS && naming.Exhausted?
        invariant Valid() && origin == old(origin)
        invariant 0 <= attempts <= TEMP_CREATE_ATTEMPTS && (!naming.Exhausted? ==> attempts < TEMP_CREATE_ATTEMPTS)
        invariant log == old(log) + Collisions(id, attempts) + LastAttempt(id, naming)
        invariant id in state.writers && state.writers[id] == w.(phase := state.writers[id].phase)
        invariant NamedAs(state, id, naming, attempts)
        invariant ReadBack(state, w.target) == ReadBack(old(state), w.target)
        decreases TEMP_CREATE_ATTEMPTS - attempts, naming.Exhausted?
      {
        naming := TryName(id, w, attempts);
        if naming.Exhausted? {
          attempts := attempts + 1;
        }
      }
      collisions := attempts;
    }

    /** One name from the counter; if something has it already, the search goes on. */
    method TryName(id: nat, w: Writer, attempts: nat) returns (naming: Naming)
      requires Valid() && id in state.writers && attempts < TEMP_CREATE_ATTEMPTS
      requires state.writers[id] == w.(phase := Choosing(attempts))
      modifies this
      ensures Valid() && origin == old(origin)
      ensures log == old(log) + if naming.Exhausted? then Collisions(id, 1) else LastAttempt(id, naming)
      ensures id in state.writers && state.writers[id] == w.(phase := state.writers[id].phase)
      ensures NamedAs(state, id, naming, attempts + 1)
      ensures ReadBack(state, w.target) == ReadBack(old(state), w.target)
    {
      Call(id, TakeName);
      if * {
        Call(id, CreateFails);
        naming := Failed;
      } else if Temp(state.writers[id]) in state.paths {
        Call(id, NameTaken);
        assert Collisions(id, 1) == Collisions(id, 0) + [Act(id, TakeName), Act(id, NameTaken)];
        naming := Exhausted;
      } else {
        naming := Free;
      }
    }

    method Begin(id: nat, w: Writer)
      requires Valid() && Enabled(state, Start(id, w))
      modifies this
      ensures Valid() && origin == old(origin) && old(log) <= log
      ensures id in state.writers && state.writers[id] == w
      ensures ReadBack(state, w.target) == ReadBack(old(state), w.target)
    {
      Take(Start(id, w));
    }

    /** Exclusive creation under a name found free. */
    method CreateAndWrite(id: nat, w: Writer, drafts: seq<Content>) returns (ok: bool)
      requires Valid() && id in state.writers && state.writers[id].phase.Creating?
      requires state.writers[id] == w.(phase := state.writers[id].phase)
      requires Temp(state.writers[id]) !in state.paths
      modifies this
      ensures Valid() && origin == old(origin) && old(log) <= log
      ensures id in state.writers && state.writers[id] == w.(phase := Done(ok))
      ensures ok ==> ReadBack(state, w.target) == Some(w.payload)
      ensures !ok ==> || ReadBack(state, w.target) == ReadBack(old(state), w.target)
                      || (w.durable && ReadBack(state, w.target) == Some(w.payload))
    {
      Call(id, Create(nextInode));
      ghost var done;
      ok, done := WriteOpenTemp(id, w, drafts);
    }

    /**
     * Everything behind the exclusive creation: the script in order up to its end, or up to the
     * first call that fails and then one attempt at removal.
     */
    method WriteOpenTemp(id: nat, w: Writer, drafts: seq<Content>) returns (ok: bool, ghost done: nat)
      requires Valid() && id in state.writers && state.writers[id].phase.Writing?
      requires state.writers[id] == w.(phase := state.writers[id].phase)
      modifies this
      ensures Valid() && origin == old(origin) && old(log) <= log
      ensures ok ==> log == old(log) + Script(id, w, drafts)
      ensures !ok ==> CleanedUp(old(log), Script(id, w, drafts), done, id, log)
      ensures id in state.writers && state.writers[id] == w.(phase := Done(ok))
      ensures ok ==> ReadBack(state, w.target) == Some(w.payload)
      ensures !ok ==> || ReadBack(state, w.target) == ReadBack(old(state), w.target)
                      || (w.durable && ReadBack(state, w.target) == Some(w.payload))
    {
      ghost var script := Script(id, w, drafts);
      var written;
      written, done := FillTemp(id, w, drafts);
      if written {
        ok, done := Publish(id, w, old(log), drafts);
        if ok {
          assert script[..|script|] == script;
          return;
        }
      }
      CleanUp(id, w, old(log), script, done);
      CleanedUpExtends(old(log), script, done, id, log);
      ok := false;
    }

    /** The one attempt at removal; whether it succeeds changes nothing for the caller. */
    method CleanUp(id: nat, w: Writer, ghost before: seq<Event>, ghost script: seq<Event>, ghost done: nat)
      requires Valid() && id in state.writers && state.writers[id].phase.Removing?
      requires state.writers[id] == w.(phase := state.writers[id].phase)
      requires Stopped(before, script, done, id, log)
      modifies this
      ensures Valid() && origin == old(origin) && CleanedUp(before, script, done, id, log)
      ensures id in state.writers && state.writers[id] == w.(phase := Done(false))
      ensures ReadBack(state, w.target) == ReadBack(old(state), w.target)
    {
      ghost var stopped := log;
      if * {
        Call(id, RemoveFails);
      } else {
        Call(id, Remove);
      }
      assert log[..|log| - 1] == stopped;
    }

    /** Write, flush and sync; stops at the first failing call. */
    method FillTemp(id: nat, w: Writer, drafts: seq<Content>) returns (written: bool, ghost done: nat)
      requires Valid() && id in state.writers && state.writers[id].phase.Writing?
      requires state.writers[id] == w.(phase := state.writers[id].phase)
      modifies this
      ensures Valid() && origin == old(origin)
      ensures written ==> done == |drafts| + 3 && Did(old(log), Script(id, w, drafts), done, log)
      ensures !written ==> Stopped(old(log), Script(id, w, drafts), done, id, log)
      ensures id in state.writers && state.writers[id] == w.(phase := state.writers[id].phase)
      ensures if written then state.writers[id].phase.Ready? else state.writers[id].phase.Removing?
      ensures ReadBack(state, w.target) == ReadBack(old(state), w.target)
    {
      written, done := WriteDrafts(id, w, drafts);
      if written {
        written, done := WritePayload(id, w, old(log), drafts);
        if written {
          written, done := FinishTemp(id, w, old(log), drafts);
        }
      }
    }

    /** The closure's writes, the last of which completes the payload. */
    method WriteDrafts(id: nat, w: Writer, drafts: seq<Content>) returns (written: bool, ghost done: nat)
      requires Valid() && id in state.writers && state.writers[id].phase.Writing?
      requires state.writers[id] == w.(phase := state.writers[id].phase)
      modifies this
      ensures Valid() && origin == old(origin)
      ensures written ==> done == |drafts| && Did(old(log), Script(id, w, drafts), done, log)
      ensures !written ==> Stopped(old(log), Script(id, w, drafts), done, id, log)
      ensures id in state.writers && state.writers[id] == w.(phase := state.writers[id].phase)
      ensures if written then state.writers[id].phase.Writing? else state.writers[id].phase.Removing?
      ensures ReadBack(state, w.target) == ReadBack(old(state), w.target)
    {
      ghost var script := Script(id, w, drafts);
      done := 0;
      for k := 0 to |drafts|
        invariant Valid() && origin == old(origin)
        invariant done == k && Did(old(log), script, k, log)
        invariant id in state.writers && state.writers[id] == w.(phase := state.writers[id].phase)
        invariant state.writers[id].phase.Writing?
        invariant ReadBack(state, w.target) == ReadBack(old(state), w.target)
      {
        assert script[k] == Act(id, Write(drafts[k]));
        if * {
          Call(id, Fail);
          return false, done;
        }
        DidNext(old(log), script, k, log);
        Call(id, Write(drafts[k]));
        done := k + 1;
      }
      written := true;
    }

    /** The write that completes the payload. */
    method WritePayload(id: nat, w: Writer, ghost before: seq<Event>, ghost drafts: seq<Content>)
      returns (written: bool, ghost done: nat)
      requires Valid() && id in state.writers && state.writers[id].phase.Writing?
      requires state.writers[id] == w.(phase := state.writers[id].phase)
      requires Did(before, Script(id, w, drafts), |drafts|, log)
      modifies this
      ensures Valid() && origin == old(origin)
      ensures written ==> done == |drafts| + 1 && Did(before, Script(id, w, drafts), done, log)
      ensures !written ==> Stopped(before, Script(id, w, drafts), done, id, log)
      ensures id in state.writers && state.writers[id] == w.(phase := state.writers[id].phase)
      ensures if written then IsComplete(state, id) else state.writers[id].phase.Removing?
      ensures ReadBack(state, w.target) == ReadBack(old(state), w.target)
    {
      done := |drafts|;
      if * {
        Call(id, Fail);
        return false, done;
      }
      DidNext(before, Script(id, w, drafts), done, log);
      Call(id, Write(w.payload));
      done := done + 1;
      written := true;
    }

    /** Flush and sync the complete content. */
    method FinishTemp(id: nat, w: Writer, ghost before: seq<Event>, ghost drafts: seq<Content>)
      returns (written: bool, ghost done: nat)
      requires Valid() && id in state.writers && IsComplete(state, id)
      requires state.writers[id] == w.(phase := state.writers[id].phase)
      requires Did(before, Script(id, w, drafts), |drafts| + 1, log)
      modifies this
      ensures Valid() && origin == old(origin)
      ensures written ==> done == |drafts| + 3 && Did(before, Script(id, w, drafts), done, log)
      ensures !written ==> Stopped(before, Script(id, w, drafts), done, id, log)
      ensures id in state.writers && state.writers[id] == w.(phase := state.writers[id].phase)
      ensures if written then state.writers[id].phase.Ready? else state.writers[id].phase.Removing?
      ensures ReadBack(state, w.target) == ReadBack(old(state), w.target)
    {
      ghost var script := Script(id, w, drafts);
      done := |drafts| + 1;
      if * {
        Call(id, Fail);
        return false, done;
      }
      DidNext(before, script, done, log);
      Call(id, FinishWrite);
      done := done + 1;
      if * {
        Call(id, Fail);
        return false, done;
      }
      DidNext(before, script, done, log);
      Call(id, Settle);
      done := done + 1;
      written := true;
    }

    /** Replace, then sync the directory if durable; stops at the first failing call. */
    method Publish(id: nat, w: Writer, ghost before: seq<Event>, ghost drafts: seq<Content>)
      returns (ok: bool, ghost done: nat)
      requires Valid() && id in state.writers && state.writers[id].phase.Ready?
      requires state.writers[id] == w.(phase := state.writers[id].phase)
      requires Did(before, Script(id, w, drafts), |drafts| + 3, log)
      modifies this
      ensures Valid() && origin == old(origin)
      ensures ok ==> Did(before, Script(id, w, drafts), |Script(id, w, drafts)|, log)
      ensures !ok ==> Stopped(before, Script(id, w, drafts), done, id, log)
      ensures id in state.writers && state.writers[id] == w.(phase := state.writers[id].phase)
      ensures if ok then state.writers[id].phase == Done(true) else state.writers[id].phase.Removing?
      ensures ok ==> ReadBack(state, w.target) == Some(w.payload)
      ensures !ok ==> || ReadBack(state, w.target) == ReadBack(old(state), w.target)
                      || (w.durable && ReadBack(state, w.target) == Some(w.payload))
    {
      ghost var script := Script(id, w, drafts);
      assert WriterSound(state, state.writers[id]);
      done := |drafts| + 3;
      if * {
        Call(id, Fail);
        return false, done;
      }
      DidNext(before, script, done, log);
      Call(id, Replace);
      done := done + 1;
      if !w.durable {
        return true, done;
      }
      if * {
        Call(id, SyncDirectoryFails);
        return false, done;
      }
      DidNext(before, script, done, log);
      Call(id, SyncDirectory);
      done := done + 1;
      ok := true;
    }
  }
}
