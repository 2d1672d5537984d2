/** The `Recovery` object of internal/core/recovery.go, whose methods change the in-memory trial and the
    journal step by step, and the two clients that run it under the apply lock. Each method is proved to do
    what the state machine in RecoverySpec says. */
module Recovery {
  import opened Wrappers
  import opened Json
  import opened Store
  import opened RecoverySpec

  class Recovery {
    const modules: seq<string>
    var file: Option<seq<Token>>
    var journal: Journal
    var trial: Option<Record>
    /** The timer has looked, found the deadline behind it and waits for the lock. */
    var queued: bool
    var up: bool
    ghost var trace: seq<Entry>

    constructor (modules: seq<string>, file: Option<seq<Token>>)
      ensures Now() == World(false, None, Absent, Disk(modules, file), false, [])
    {
      this.modules, this.file := modules, file;
      journal, trial, queued, up, trace := Absent, None, false, false, [];
    }

    ghost function Now(): World
      reads this
    {
      World(up, trial, journal, Disk(modules, file), queued, trace)
    }

    method Die()
      modifies this
      ensures Now() == Crashed(old(Now()))
    {
      up, trial, queued := false, None, false;
    }

    method LoadDocument(readable: bool) returns (r: Result<Document>)
      ensures r == if readable then Loaded(Now().disk) else Failure
    {
      if !readable { return Failure; }
      if file.None? { return Success(EMPTY); }
      r := Decode(modules, file.value);
    }

    /** Replaces the journal in one atomic step. */
    method Persist(t: Record, outcome: Outcome, ghost entries: seq<Entry>) returns (ok: bool)
      modifies this
      ensures Ran(Now(), ok) ==
              Effect(old(Now()), old(Now()).(journal := Present(t), trace := old(trace) + entries), outcome)
    {
      if outcome.Done? || outcome.DiedAfter? {
        journal := Present(t);
        trace := trace + entries;
      }
      if outcome.DiedBefore? || outcome.DiedAfter? {
        Die();
      }
      ok := outcome.Done?;
    }

    method SaveDocument(doc: Document, outcome: Outcome) returns (ok: bool)
      modifies this
      ensures Ran(Now(), ok) == Save(old(Now()), doc, outcome)
    {
      if outcome.Done? || outcome.DiedAfter? {
        var text := Encode(modules, doc);
        file := Some(text);
        trace := trace + [Saving(doc)];
      }
      if outcome.DiedBefore? || outcome.DiedAfter? {
        Die();
      }
      ok := outcome.Done?;
    }

    method BeginTrial(io: BeginIo) returns (ok: bool)
      modifies this
      ensures Ran(Now(), ok) == Begin(old(Now()), io)
    {
      if trial.Some? { return false; }
      var doc := LoadDocument(io.load);
      if doc.Failure? { return false; }
      var before := Encode(modules, doc.value);
      var timeout := io.timeout;
      if timeout == 0 { timeout := TWO_MINUTES; }
      if io.capture.None? { return false; }
      var t := Record(io.nonce, io.now + timeout, Pending, before, [], io.capture.value);
      ok := Persist(t, io.persist, [Begun(t.id, t.deadline, doc.value, t.runtime)]);
      if ok { trial := Some(t); }
    }

    method ClearTrial(end: Entry, remove: Outcome) returns (ok: bool)
      modifies this
      ensures Ran(Now(), ok) == Clear(old(Now()), end, remove)
    {
      if remove.Done? || remove.DiedAfter? {
        journal := Absent;
        trace := trace + [end];
      }
      if remove.DiedBefore? || remove.DiedAfter? {
        Die();
      }
      ok := remove.Done?;
      if ok { trial := None; }
    }

    method RevertTrial(cause: Cause, io: RevertIo) returns (ok: bool)
      modifies this
      ensures Ran(Now(), ok) == Revert(old(Now()), cause, io)
    {
      hide Decoded, Encoded, Loaded, RollBack;
      if trial.None? { return true; }
      var t := trial.value;
      var before := Decode(modules, t.before);
      if before.Failure? { return false; }
      ghost var entry: Entry;
      ghost var retry := t.from != [];
      if t.from == [] {
        var current := LoadDocument(io.load);
        if current.Failure? { return false; }
        var from := Encode(modules, current.value);
        t := t.(from := from);
      }
      var source := Decode(modules, t.from);
      if source.Failure? { return false; }
      t := t.(phase := Recovering);
      ok := Persist(t, io.persist, [if retry then Retried(cause) else Journalled(cause, source.value)]);
      if !ok { return; }
      trial := Some(t);
      ok := Undo(t, source.value, before.value, io);
    }

    /** The rest of a revert: the rollback action, then either the end of the trial or a new deadline to retry at. */
    method Undo(t: Record, source: Document, before: Document, io: RevertIo) returns (ok: bool)
      requires trial == Some(t)
      modifies this
      ensures Ran(Now(), ok) == RollBack(old(Now()), t, source, before, io)
    {
      ok := false;
      if !io.roll.NoRollback? {
        trace := trace + [RollbackCalled(source, before, t.runtime)];
        if io.roll.RolledAll? || io.roll.saved {
          var saved := SaveDocument(before, Done);
        }
      }
      match io.roll {
        case RolledAll =>
          ok := ClearTrial(RolledBack, io.remove);
        case RollDied(_) =>
          Die();
        case RollFailed(_) | NoRollback =>
          var failed := t.(phase := Failed, deadline := io.now + RETRY_AFTER);
          trial := Some(failed);
          var saved := Persist(failed, io.persistFailure, []);
      }
    }

    /** Startup, before anything else runs. */
    method LoadJournal(readable: bool, io: RevertIo)
      modifies this
      ensures Now() == Load(old(Now()), readable, io)
    {
      up := true;
      if readable && journal.Absent? {
        trace := trace + [Booted(true)];
        return;
      }
      if readable && journal.Present? && journal.record.id != "" && journal.record.before != [] {
        var before := Decode(modules, journal.record.before);
        if before.Success? {
          trace := trace + [Booted(true)];
          trial := Some(journal.record);
          var ok := RevertTrial(Rebooted, io);
          return;
        }
      }
      trace := trace + [Booted(false)];
      trial := Some(UNREADABLE);
    }

    /** One tick of the timer, without the lock. */
    method Look(at: int)
      requires up
      modifies this
      ensures Now() == Step(old(Now()), Tick(at))
    {
      if trial.None? || trial.value.id == "" || at < trial.value.deadline {
        return;
      }
      queued := true;
    }

    /** The timer with the lock, which looks again before it acts. */
    method Fire(at: int, io: RevertIo)
      requires up
      modifies this
      ensures Now() == Step(old(Now()), TimerFires(at, io))
    {
      if !queued { return; }
      queued := false;
      if trial.None? || at < trial.value.deadline {
        return;
      }
      var ok := RevertTrial(Timer(at), io);
    }

    method ConfirmTrial(id: string, at: int, remove: Outcome)
      requires up
      modifies this
      ensures Now() == Step(old(Now()), Confirm(id, at, remove))
    {
      if id == "" || trial.None? || trial.value.id != id {
        return;
      }
      if trial.value.phase != Pending || at >= trial.value.deadline {
        return;
      }
      var ok := ClearTrial(Confirmed(at), remove);
    }

    method RevertOnRequest(id: string, io: RevertIo)
      requires up
      modifies this
      ensures Now() == Step(old(Now()), RevertNow(id, io))
    {
      if id == "" || trial.None? || trial.value.id != id {
        return;
      }
      var ok := RevertTrial(Asked, io);
    }

    method ProtectConnectivity(header: string, needed: bool, at: int, io: BeginIo) returns (ok: bool)
      modifies this
      ensures Ran(Now(), ok) == Protect(old(Now()), header, needed, at, io)
    {
      if !needed { return true; }
      if header != "" && trial.Some? && trial.value.id == header && trial.value.phase == Pending && at < trial.value.deadline {
        return true;
      }
      ok := BeginTrial(io);
    }

    /** A guarded configuration write: the lock is taken, the guard runs, a trial is begun if the change
        needs one, and one module's subtree is saved. */
    method Mutate(header: string, guardAt: int, needed: bool, protectAt: int, begin: BeginIo, change: Option<Change>)
      requires up
      modifies this
      ensures Now() == Step(old(Now()), Edit(header, guardAt, needed, protectAt, begin, change))
    {
      if !(trial.None? ||
           (trial.value.phase == Pending && guardAt < trial.value.deadline && header == trial.value.id)) {
        return;
      }
      trace := trace + [Admitted(header, guardAt, needed)];
      var ok := ProtectConnectivity(header, needed, protectAt, begin);
      if !ok || change.None? { return; }
      if change.value.name !in modules { return; }
      var doc := LoadDocument(change.value.load);
      if doc.Failure? { return; }
      ok := SaveDocument(Set(doc.value, change.value.name, change.value.raw), change.value.save);
    }

    /** A full restore: begins a trial, then runs the rollback action towards the uploaded document. */
    method RestoreDocument(header: string, guardAt: int, load: bool, doc: Document, begin: BeginIo, roll: Roll, io: RevertIo)
      requires up && Settled(modules, doc)
      modifies this
      ensures Now() == Step(old(Now()), Restore(header, guardAt, load, doc, begin, roll, io))
    {
      if !(trial.None? ||
           (trial.value.phase == Pending && guardAt < trial.value.deadline && header == trial.value.id)) {
        return;
      }
      trace := trace + [Admitted(header, guardAt, true)];
      if roll.NoRollback? { return; }
      var current := LoadDocument(load);
      if current.Failure? { return; }
      var ok := BeginTrial(begin);
      if !ok { return; }
      if roll.RolledAll? || roll.saved {
        var saved := SaveDocument(doc, Done);
      }
      if roll.RollDied? {
        Die();
      } else if roll.RollFailed? {
        ok := RevertTrial(RestoreBroke, io);
      }
    }
  }
}
