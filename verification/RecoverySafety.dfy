/** What every run of the connectivity trial keeps. The rules are stated on the trace alone, by a
    monitor that reads it from the start and knows nothing of the machine's own state. */
module RecoverySafety {
  import opened Wrappers
  import opened Json
  import opened Store
  import opened RecoverySpec

  /** A trial that has begun and not ended. `from` is the source document of its first journalled revert. */
  datatype Open = Open(id: string, deadline: int, before: Document, runtime: string, from: Option<Document>)

  /** What the last entry permits: a guarded write just admitted, whose trial may have begun since, and which may
      need one. */
  datatype Grant = NoGrant | Free | OnTrial

  /** `stored` is the document on disk, `blocked` that the journal could not be read at the last start, `rolled` that
      the rollback action was called and has at most saved since. */
  datatype Monitor = Monitor(open: Option<Open>, stored: Document, blocked: bool, grant: Grant, rolled: bool, lawful: bool)

  /** What each entry requires of the run so far. */
  ghost predicate Lawful(m: Monitor, e: Entry) {
    match e
    // At most one trial, and it captures the stored document.
    case Begun(_, _, before, _) => m.open.None? && !m.blocked && before == m.stored
    // While a trial is open, a guarded write needs its id, its deadline ahead, and no revert under way.
    case Admitted(header, at, _) =>
      !m.blocked && (m.open.Some? ==> m.open.value.from.None? && at < m.open.value.deadline && header == m.open.value.id)
    // Whatever is new in the store was just admitted, on trial if it needs one; and once a revert is journalled it is
    // the captured document, saved by the rollback action.
    case Saving(doc) =>
      doc == m.stored ||
      if m.open.Some? && m.open.value.from.Some? then doc == m.open.value.before && m.rolled
      else m.grant == Free || (m.grant == OnTrial && m.open.Some?)
    // The first revert journals the document stored at that moment, and the timer never reverts early.
    case Journalled(cause, from) =>
      m.open.Some? && m.open.value.from.None? && from == m.stored && (cause.Timer? ==> cause.at >= m.open.value.deadline)
    case Retried(_) => m.open.Some? && m.open.value.from.Some?
    // Every rollback of the trial runs between the same two documents, on the runtime captured at the start.
    case RollbackCalled(from, before, runtime) =>
      m.open.Some? && m.open.value.from == Some(from) && before == m.open.value.before && runtime == m.open.value.runtime
    // A trial is kept only before its own deadline, and never after a revert was journalled.
    case Confirmed(at) => m.open.Some? && m.open.value.from.None? && at < m.open.value.deadline
    // A trial is over by rollback only once the captured document is what is stored.
    case RolledBack => m.open.Some? && m.open.value.from.Some? && m.stored == m.open.value.before && m.rolled
    case Booted(_) => true
  }

  function After(m: Monitor, e: Entry): Monitor {
    var m := m.(grant := if e.Admitted? then (if e.needed then OnTrial else Free) else if e.Begun? then m.grant else NoGrant,
                rolled := e.RollbackCalled? || (e.Saving? && m.rolled));
    match e
    case Begun(id, deadline, before, runtime) => m.(open := Some(Open(id, deadline, before, runtime, None)))
    case Saving(doc) => m.(stored := doc)
    case Journalled(_, from) => if m.open.Some? then m.(open := Some(m.open.value.(from := Some(from)))) else m
    case Confirmed(_) | RolledBack => m.(open := None)
    case Booted(readable) => m.(blocked := !readable)
    case _ => m
  }

  ghost function Scan(trace: seq<Entry>, doc: Document): Monitor {
    if trace == [] then Monitor(None, doc, false, NoGrant, false, true)
    else
      var m := Scan(trace[..|trace| - 1], doc);
      var e := trace[|trace| - 1];
      After(m, e).(lawful := m.lawful && Lawful(m, e))
  }

  lemma ScanAppend(trace: seq<Entry>, e: Entry, doc: Document)
    ensures Scan(trace + [e], doc) ==
            After(Scan(trace, doc), e).(lawful := Scan(trace, doc).lawful && Lawful(Scan(trace, doc), e))
  {
    assert (trace + [e])[..|trace + [e]| - 1] == trace;
  }

  // ----- the invariant -----

  /** A record, in memory or on disk, that tells the truth about the open trial. */
  ghost predicate Matches(modules: seq<string>, r: Record, o: Open) {
    && r.id != "" && r.id == o.id && r.runtime == o.runtime
    && r.before == Encoded(modules, o.before)
    && (o.from.None? ==> r.from == [] && r.phase == Pending && r.deadline == o.deadline)
    && (o.from.Some? ==> r.from == Encoded(modules, o.from.value) && r.phase != Pending)
  }

  ghost predicate Survives(modules: seq<string>, o: Open) {
    Settled(modules, o.before) && (o.from.Some? ==> Settled(modules, o.from.value))
  }

  /** The machine agrees with the monitor. */
  ghost predicate Agrees(w: World, m: Monitor) {
    && SCHEMA_KEY !in w.disk.modules
    && Loaded(w.disk) == Success(m.stored) && Settled(w.disk.modules, m.stored)
    && m.lawful
    && (m.open.Some? ==> Survives(w.disk.modules, m.open.value))
    && (w.journal.Absent? ==> m.open.None?)
    && (w.journal.Present? ==> m.open.Some? && Matches(w.disk.modules, w.journal.record, m.open.value))
    && (!w.up ==> w.trial.None? && !w.queued)
    && (w.up && w.trial.None? ==> m.open.None? && !m.blocked)
    && (w.trial.Some? && w.trial.value.id == "" ==> w.trial.value == UNREADABLE && m.blocked)
    && (w.trial.Some? && w.trial.value.id != "" ==>
          !m.blocked && m.open.Some? && Matches(w.disk.modules, w.trial.value, m.open.value))
  }

  ghost predicate Inv(w: World, doc: Document) {
    Agrees(w, Scan(w.trace, doc))
  }

  lemma SaveKeeps(w: World, new_: Document, outcome: Outcome, doc: Document)
    requires Inv(w, doc) && w.up && Settled(w.disk.modules, new_)
    requires Lawful(Scan(w.trace, doc), Saving(new_))
    ensures Inv(Save(w, new_, outcome).w, doc)
    ensures Save(w, new_, outcome).w.disk.modules == w.disk.modules
  {
    hide Encoded, Decoded, Settled;
    RoundTrip(w.disk.modules, new_);
    ScanAppend(w.trace, Saving(new_), doc);
  }

  lemma BegunKeeps(w: World, t: Record, stored: Document, doc: Document)
    requires Inv(w, doc) && w.up && w.trial.None? && stored == Scan(w.trace, doc).stored
    requires t.id != "" && t.phase == Pending && t.from == [] && t.before == Encoded(w.disk.modules, stored)
    ensures var after := Log(w.(journal := Present(t)), Begun(t.id, t.deadline, stored, t.runtime));
            && Inv(Crashed(after), doc) && Inv(after.(trial := Some(t)), doc)
            && Scan(after.trace, doc).grant == Scan(w.trace, doc).grant
  {
    hide Encoded, Decoded, Settled;
    ScanAppend(w.trace, Begun(t.id, t.deadline, stored, t.runtime), doc);
  }

  lemma StoredIs(w: World, doc: Document)
    requires Inv(w, doc)
    ensures Loaded(w.disk) == Success(Scan(w.trace, doc).stored)
    ensures Settled(w.disk.modules, Scan(w.trace, doc).stored) && SCHEMA_KEY !in w.disk.modules
  {}

  /** What a beginning does, once the stored document is known. */
  lemma BeginIs(w: World, io: BeginIo, stored: Document)
    requires Loaded(w.disk) == Success(stored)
    ensures w.trial.Some? || !io.load || io.capture.None? ==> Begin(w, io) == Ran(w, false)
    ensures w.trial.None? && io.load && io.capture.Some? ==>
              var timeout := if io.timeout == 0 then TWO_MINUTES else io.timeout;
              var t := Record(io.nonce, io.now + timeout, Pending, Encoded(w.disk.modules, stored), [], io.capture.value);
              var after := Log(w.(journal := Present(t)), Begun(t.id, t.deadline, stored, t.runtime));
              Begin(w, io) == match io.persist
                case Done => Ran(after.(trial := Some(t)), true)
                case Refused => Ran(w, false)
                case DiedBefore => Ran(Crashed(w), false)
                case DiedAfter => Ran(Crashed(after), false)
  {
    hide Encoded, Loaded;
  }

  lemma BeginKeeps(w: World, io: BeginIo, doc: Document)
    requires Inv(w, doc) && w.up
    ensures Inv(Begin(w, io).w, doc)
    ensures Begin(w, io).w.disk == w.disk
    ensures Begin(w, io).ok ==>
              && Begin(w, io).w.up && Begin(w, io).w.trial.Some? && Begin(w, io).w.trial.value.phase == Pending
              && Scan(Begin(w, io).w.trace, doc).grant == Scan(w.trace, doc).grant
  {
    hide Encoded, Decoded, Settled, Loaded, Inv, Scan, Begin;
    StoredIs(w, doc);
    var stored := Scan(w.trace, doc).stored;
    BeginIs(w, io, stored);
    CrashKeeps(w, doc);
    if w.trial.None? && io.load && io.capture.Some? {
      var timeout := if io.timeout == 0 then TWO_MINUTES else io.timeout;
      var t := Record(io.nonce, io.now + timeout, Pending, Encoded(w.disk.modules, stored), [], io.capture.value);
      BegunKeeps(w, t, stored, doc);
    }
  }

  lemma ClearKeeps(w: World, end: Entry, remove: Outcome, doc: Document)
    requires Inv(w, doc) && w.up && w.trial.Some? && w.trial.value.id != ""
    requires end.Confirmed? || end.RolledBack?
    requires Lawful(Scan(w.trace, doc), end)
    ensures Inv(Clear(w, end, remove).w, doc)
  {
    hide Encoded, Decoded, Settled;
    ScanAppend(w.trace, end, doc);
  }

  lemma MarkFailedKeeps(w: World, t: Record, io: RevertIo, doc: Document)
    requires Inv(w, doc) && w.up && w.trial == Some(t) && t.id != "" && t.from != []
    ensures Inv(MarkFailed(w, t, io).w, doc)
  {
    hide Encoded, Decoded, Settled;
  }

  /** Memory holds the journalled record, and the trace names the same two documents. */
  ghost predicate Journaled(w: World, t: Record, source: Document, before: Document, doc: Document) {
    && w.up && w.trial == Some(t) && t.id != "" && t.from != []
    && Scan(w.trace, doc).open.Some?
    && Scan(w.trace, doc).open.value.from == Some(source)
    && Scan(w.trace, doc).open.value.before == before
  }

  lemma RollBackKeeps(w: World, t: Record, source: Document, before: Document, io: RevertIo, doc: Document)
    requires Inv(w, doc) && Journaled(w, t, source, before, doc)
    ensures Inv(RollBack(w, t, source, before, io).w, doc)
  {
    hide Encoded, Decoded, Settled;
    if io.roll.NoRollback? {
      MarkFailedKeeps(w, t, io, doc);
      return;
    }
    var called := Log(w, RollbackCalled(source, before, t.runtime));
    ScanAppend(w.trace, RollbackCalled(source, before, t.runtime), doc);
    assert Inv(called, doc);
    var saved := Save(called, before, Done).w;
    SaveKeeps(called, before, Done, doc);
    ScanAppend(called.trace, Saving(before), doc);
    match io.roll
    case RolledAll => ClearKeeps(saved, RolledBack, io.remove, doc);
    case RollDied(_) =>
    case RollFailed(early) => MarkFailedKeeps(if early then saved else called, t, io, doc);
    case _ =>
  }

  /** The documents a revert works on are the ones the trace names. */
  lemma RevertReads(w: World, io: RevertIo, doc: Document)
    requires Inv(w, doc) && w.up && w.trial.Some? && w.trial.value.id != ""
    ensures Scan(w.trace, doc).open.Some?
    ensures Decoded(w.disk.modules, w.trial.value.before) == Success(Scan(w.trace, doc).open.value.before)
    ensures var m := Scan(w.trace, doc);
            var source := if m.open.value.from.None? then m.stored else m.open.value.from.value;
            var from := RevertFrom(w, w.trial.value, io);
            from.Success? ==> from.value == Encoded(w.disk.modules, source) && from.value != [] &&
                              Decoded(w.disk.modules, from.value) == Success(source)
  {
    hide Encoded, Decoded, Settled;
    var m := Scan(w.trace, doc);
    var source := if m.open.value.from.None? then m.stored else m.open.value.from.value;
    RoundTrip(w.disk.modules, m.open.value.before);
    RoundTrip(w.disk.modules, source);
  }

  lemma JournalledKeeps(w: World, cause: Cause, source: Document, doc: Document)
    requires Inv(w, doc) && w.up && w.trial.Some? && w.trial.value.id != ""
    requires cause.Timer? && w.trial.value.phase == Pending ==> cause.at >= w.trial.value.deadline
    requires var m := Scan(w.trace, doc);
             source == (if m.open.value.from.None? then m.stored else m.open.value.from.value)
    requires Encoded(w.disk.modules, source) != []
    ensures var t := w.trial.value;
            var t' := t.(from := Encoded(w.disk.modules, source), phase := Recovering);
            var journalled := Log(w.(journal := Present(t')), if t.from == [] then Journalled(cause, source) else Retried(cause));
            && Inv(Crashed(journalled), doc)
            && Inv(journalled.(trial := Some(t')), doc)
            && Journaled(journalled.(trial := Some(t')), t', source, Scan(w.trace, doc).open.value.before, doc)
  {
    hide Encoded, Decoded, Settled, Loaded;
    var m := Scan(w.trace, doc);
    assert Matches(w.disk.modules, w.trial.value, m.open.value);
    assert w.trial.value.from == [] <==> m.open.value.from.None? by {
      if m.open.value.from.Some? { assert source == m.open.value.from.value; }
    }
    ScanAppend(w.trace, Journalled(cause, source), doc);
    ScanAppend(w.trace, Retried(cause), doc);
  }

  lemma RevertKeeps(w: World, cause: Cause, io: RevertIo, doc: Document)
    requires Inv(w, doc) && w.up
    requires cause.Timer? && w.trial.Some? && w.trial.value.phase == Pending ==> cause.at >= w.trial.value.deadline
    ensures Inv(Revert(w, cause, io).w, doc)
  {
    hide Encoded, Decoded, Settled, Loaded, Agrees, Scan, Inv, Journaled, RollBack;
    if w.trial.Some? && w.trial.value.id == "" {
      assert w.trial.value == UNREADABLE by { RecordOf(w, doc); }
      UnreadableRevert(w, cause, io);
    } else if w.trial.Some? {
      RevertReads(w, io, doc);
      var t, m := w.trial.value, Scan(w.trace, doc);
      var source := if m.open.value.from.None? then m.stored else m.open.value.from.value;
      var from := RevertFrom(w, t, io);
      if from.Success? {
        JournalledKeeps(w, cause, source, doc);
        var t' := t.(from := from.value, phase := Recovering);
        var journalled := Log(w.(journal := Present(t')), if t.from == [] then Journalled(cause, source) else Retried(cause));
        if io.persist.Done? {
          RollBackKeeps(journalled.(trial := Some(t')), t', source, m.open.value.before, io, doc);
        } else if io.persist.DiedBefore? {
          CrashKeeps(w, doc);
        }
      }
    }
  }

  lemma RecordOf(w: World, doc: Document)
    requires Inv(w, doc) && w.trial.Some? && w.trial.value.id == ""
    ensures w.trial.value == UNREADABLE
  {}

  lemma CrashKeeps(w: World, doc: Document)
    requires Inv(w, doc)
    ensures Inv(Crashed(w), doc)
  {
    hide Encoded, Decoded, Settled, Loaded;
  }

  /** A journal that could not be read gives a revert nothing to work on. */
  lemma UnreadableRevert(w: World, cause: Cause, io: RevertIo)
    requires w.trial == Some(UNREADABLE)
    ensures Revert(w, cause, io).w == w
  {}

  lemma LoadKeeps(w: World, readable: bool, io: RevertIo, doc: Document)
    requires Inv(w, doc) && !w.up
    ensures Inv(Load(w, readable, io), doc)
  {
    StartsUp(w, doc);
    hide Encoded, Decoded, Settled, Inv, Scan, Revert;
    if readable && w.journal.Present? {
      RevertKeeps(Log(w.(up := true), Booted(true)).(trial := Some(w.journal.record)), Rebooted, io, doc);
    }
  }

  /** The three ways to start, before any revert. */
  lemma StartsUp(w: World, doc: Document)
    requires Inv(w, doc) && !w.up
    ensures Inv(Log(w.(up := true), Booted(false)).(trial := Some(UNREADABLE)), doc)
    ensures w.journal.Absent? ==> Inv(Log(w.(up := true), Booted(true)), doc)
    ensures w.journal.Present? ==>
              && Inv(Log(w.(up := true), Booted(true)).(trial := Some(w.journal.record)), doc)
              && w.journal.record.id != "" && w.journal.record.before != []
              && Decoded(w.disk.modules, w.journal.record.before).Success?
  {
    hide Encoded, Decoded, Settled, Loaded;
    ScanAppend(w.trace, Booted(true), doc);
    ScanAppend(w.trace, Booted(false), doc);
    if w.journal.Present? { RoundTrip(w.disk.modules, Scan(w.trace, doc).open.value.before); }
  }

  /** A guarded write that got past its protection is admitted and may save. */
  lemma ProtectKeeps(w: World, header: string, at: int, needed: bool, protectAt: int, io: BeginIo, doc: Document)
    requires Inv(w, doc) && w.up && Guard(w, header, at)
    ensures var ran := Protect(Log(w, Admitted(header, at, needed)), header, needed, protectAt, io);
            && Inv(ran.w, doc) && ran.w.disk == w.disk
            && (ran.ok ==> ran.w.up && MaySave(ran.w, doc))
  {
    var admitted := Log(w, Admitted(header, at, needed));
    AdmittedKeeps(w, header, at, needed, doc);
    BeginKeeps(admitted, io, doc);
    MaySaveIf(admitted, doc);
    MaySaveIf(Begin(admitted, io).w, doc);
    assert Guard(admitted, header, at);
    hide Begin, Inv, Scan, MaySave;
  }

  /** Whatever is saved now is lawful. */
  ghost predicate MaySave(w: World, doc: Document) {
    forall new_ :: Lawful(Scan(w.trace, doc), Saving(new_))
  }

  lemma MaySaveIf(w: World, doc: Document)
    ensures Inv(w, doc) && w.up && Scan(w.trace, doc).grant != NoGrant &&
            (w.trial.None? || w.trial.value.phase == Pending) && (Scan(w.trace, doc).grant == OnTrial ==> w.trial.Some?) ==>
              MaySave(w, doc)
  {
    hide Encoded, Decoded, Settled, Loaded, Scan;
  }

  lemma EditKeeps(w: World, e: Event, doc: Document)
    requires Inv(w, doc) && w.up && e.Edit?
    ensures Inv(DoEdit(w, e), doc)
  {
    if Guard(w, e.header, e.guardAt) {
      var ran := Protect(Log(w, Admitted(e.header, e.guardAt, e.needed)), e.header, e.needed, e.protectAt, e.begin);
      ProtectKeeps(w, e.header, e.guardAt, e.needed, e.protectAt, e.begin, doc);
      if ran.ok && e.change.Some? && e.change.value.name in w.disk.modules {
        var c := e.change.value;
        StoredIs(ran.w, doc);
        var stored := Scan(ran.w.trace, doc).stored;
        hide Protect, Encoded, Decoded, Settled, Inv, Scan, Loaded, Guard, Lawful;
        SetSettled(w.disk.modules, stored, c.name, c.raw);
        SaveKeeps(ran.w, Set(stored, c.name, c.raw), c.save, doc);
      }
    }
  }

  lemma RestoreKeeps(w: World, e: Event, doc: Document)
    requires Inv(w, doc) && w.up && e.Restore?
    ensures Inv(DoRestore(w, e), doc)
  {
    hide Encoded, Decoded, Settled, Loaded, Agrees;
    if Guard(w, e.header, e.guardAt) {
      var admitted := Log(w, Admitted(e.header, e.guardAt, true));
      AdmittedKeeps(w, e.header, e.guardAt, true, doc);
      BeginKeeps(admitted, e.begin, doc);
      var ran := Begin(admitted, e.begin);
      if ran.ok && Settled(w.disk.modules, e.doc) {
        RestoreSaves(ran.w, e.doc, doc);
        var saved := Save(ran.w, e.doc, Done).w;
        RevertKeeps(saved, RestoreBroke, e.revert, doc);
        RevertKeeps(ran.w, RestoreBroke, e.revert, doc);
        CrashKeeps(saved, doc);
        CrashKeeps(ran.w, doc);
      }
    }
  }

  lemma AdmittedKeeps(w: World, header: string, at: int, needed: bool, doc: Document)
    requires Inv(w, doc) && w.up && Guard(w, header, at)
    ensures Inv(Log(w, Admitted(header, at, needed)), doc)
    ensures Scan(Log(w, Admitted(header, at, needed)).trace, doc).grant == if needed then OnTrial else Free
  {
    hide Encoded, Decoded, Settled, Loaded;
    ScanAppend(w.trace, Admitted(header, at, needed), doc);
  }

  lemma RestoreSaves(w: World, target: Document, doc: Document)
    requires Inv(w, doc) && w.up && w.trial.Some? && w.trial.value.phase == Pending && Settled(w.disk.modules, target)
    requires Scan(w.trace, doc).grant != NoGrant
    ensures Inv(Save(w, target, Done).w, doc)
  {
    hide Encoded, Decoded, Settled, Loaded;
    SaveKeeps(w, target, Done, doc);
  }

  lemma StepKeeps(w: World, e: Event, doc: Document)
    requires Inv(w, doc)
    ensures Inv(Step(w, e), doc)
  {
    hide Encoded, Decoded, Settled;
    if e.Restart? {
      if !w.up { LoadKeeps(w, e.readable, e.io, doc); }
    } else if w.up {
      match e
      case Edit(_, _, _, _, _, _) => EditKeeps(w, e, doc);
      case Restore(_, _, _, _, _, _, _) => RestoreKeeps(w, e, doc);
      case Reapply(save) => SaveKeeps(w, Scan(w.trace, doc).stored, save, doc);
      case Confirm(id, at, remove) =>
        if id != "" && w.trial.Some? && w.trial.value.id == id && w.trial.value.phase == Pending && at < w.trial.value.deadline {
          ClearKeeps(w, Confirmed(at), remove, doc);
        }
      case RevertNow(id, io) => RevertKeeps(w, Asked, io, doc);
      case TimerFires(at, io) =>
        if w.trial.Some? && at >= w.trial.value.deadline { RevertKeeps(w.(queued := false), Timer(at), io, doc); }
      case _ =>
    }
  }

  /** Every run from a machine without a trial is lawful at every entry, whatever fails and wherever it
      dies, and ends with the monitor's account of the disk being the true one. */
  lemma {:induction false} EveryRunIsLawful(w: World, doc: Document, events: seq<Event>)
    requires Fresh(w, doc)
    ensures Inv(Run(w, events), doc)
    ensures Scan(Run(w, events).trace, doc).lawful
    ensures Loaded(Run(w, events).disk) == Success(Scan(Run(w, events).trace, doc).stored)
  {
    if events == [] {
      FreshInv(w, doc);
    } else {
      EveryRunIsLawful(w, doc, events[..|events| - 1]);
      StepKeeps(Run(w, events[..|events| - 1]), events[|events| - 1], doc);
    }
  }

  lemma FreshInv(w: World, doc: Document)
    requires Fresh(w, doc)
    ensures Inv(w, doc)
  {
    if w.disk.file.Some? {
      DecodedSettled(w.disk.modules, w.disk.file.value);
    } else {
      EmptySettled(w.disk.modules);
    }
  }

  lemma EmptySettled(modules: seq<string>)
    ensures Settled(modules, EMPTY)
  {
    var none := set k | k in EMPTY.keys.Keys && k !in modules;
    assert none == {};
    assert Listing(none) == [];
  }
}
