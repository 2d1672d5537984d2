/** What each request to the connectivity trial does, field by field and for every failure: written on the machine
    before and after it, without the operations it is made of. */
module RecoverySteps {
  import opened Wrappers
  import opened Json
  import opened Store
  import opened RecoverySpec
  import opened RecoverySafety
  import opened RecoveryRuns

  /** What a deadline is set from: two minutes unless told otherwise. */
  function Allowance(io: BeginIo): int { if io.timeout == 0 then 120 else io.timeout }

  /** `t` is a trial that has just begun on `w`: unconfirmed, with nothing reverted, and capturing what is stored. */
  ghost predicate NewTrial(w: World, io: BeginIo, t: Record) {
    && t.id == io.nonce && t.deadline == io.now + Allowance(io) && t.phase == Pending && t.from == []
    && io.capture == Some(t.runtime)
    && Loaded(w.disk).Success? && Decoded(w.disk.modules, t.before) == Loaded(w.disk)
  }

  /** The disk took the step, whether or not the process lived to see it. */
  predicate Landed(outcome: Outcome) { outcome == Done || outcome == DiedAfter }

  // ----- a guarded change -----

  /** Nothing is on trial, or the request is the pending trial's own, in time. */
  predicate MayWrite(w: World, header: string, at: int) {
    w.trial.None? || (w.trial.value.phase == Pending && at < w.trial.value.deadline && header == w.trial.value.id)
  }

  /** The change begins a trial of its own. */
  predicate Begins(w: World, e: Event)
    requires e.Edit?
  {
    e.needed && w.trial.None? && e.begin.load && e.begin.capture.Some? && e.begin.persist == Done
  }

  /** The change is part of the trial it names, which is still in time when the protection looks. */
  predicate Joins(w: World, e: Event)
    requires e.Edit?
  {
    && e.needed && w.trial.Some? && w.trial.value.phase == Pending && e.header == w.trial.value.id
    && e.guardAt < w.trial.value.deadline && e.protectAt < w.trial.value.deadline
  }

  predicate Changes(w: World, e: Event)
    requires e.Edit?
  {
    && MayWrite(w, e.header, e.guardAt) && (e.needed ==> Begins(w, e) || Joins(w, e))
    && e.change.Some? && e.change.value.name in w.disk.modules && e.change.value.load && Landed(e.change.value.save)
  }

  /** A guarded change reaches the disk exactly when the guard admits it, the protection it needs was begun or joined in
      time, and it can be read and written; it then replaces one module's subtree and nothing else. If it needs
      protection, a trial that captured what was stored before is then pending in memory, unless the process died, and
      in the journal, unless that was damaged before. */
  lemma EditMeans(w: World, doc: Document, e: Event)
    requires Reached(w, doc) && w.up && e.Edit?
    ensures Loaded(w.disk).Success?
    ensures !Changes(w, e) ==> Step(w, e).disk == w.disk
    ensures Changes(w, e) ==>
              var c := e.change.value;
              Loaded(Step(w, e).disk).Success? && Loaded(Step(w, e).disk).value.keys == Loaded(w.disk).value.keys[c.name := c.raw]
    ensures Changes(w, e) && Begins(w, e) ==>
              && Step(w, e).journal.Present? && NewTrial(w, e.begin, Step(w, e).journal.record)
              && (Step(w, e).up ==> Step(w, e).trial == Some(Step(w, e).journal.record))
    ensures Changes(w, e) && Joins(w, e) ==>
              Step(w, e).journal == w.journal && (Step(w, e).up ==> Step(w, e).trial == w.trial)
    ensures Changes(w, e) ==> (Step(w, e).up <==> e.change.value.save == Done)
  {
    ReachedInv(w, doc);
    StoredIs(w, doc);
    NamelessIsUnreadable(w, doc);
    var stored := Scan(w.trace, doc).stored;
    hide Reached, Inv, Scan, Encoded, Decoded, Settled, Loaded, NewTrial, Step;
    EditIs(w, e, stored);
    BeginsNew(w, e.begin, stored);
    if e.change.Some? && e.change.value.name in w.disk.modules {
      ChangeStored(w, stored, e.change.value.name, e.change.value.raw);
    }
  }

  /** The trial a change begins. */
  ghost function TrialOf(w: World, io: BeginIo, stored: Document): Record
    requires io.capture.Some?
  {
    Record(io.nonce, io.now + Allowance(io), Pending, Encoded(w.disk.modules, stored), [], io.capture.value)
  }

  /** A change step by step. */
  lemma EditIs(w: World, e: Event, stored: Document)
    requires w.up && e.Edit? && Loaded(w.disk) == Success(stored)
    requires w.trial.Some? && w.trial.value.phase == Pending ==> w.trial.value.id != ""
    ensures !Changes(w, e) ==> Step(w, e).disk == w.disk
    ensures Changes(w, e) ==> Step(w, e).disk == Saved(w.disk, Set(stored, e.change.value.name, e.change.value.raw))
    ensures Changes(w, e) ==> (Step(w, e).up <==> e.change.value.save == Done)
    ensures Changes(w, e) && Begins(w, e) ==>
              && Step(w, e).journal == Present(TrialOf(w, e.begin, stored))
              && (Step(w, e).up ==> Step(w, e).trial == Some(TrialOf(w, e.begin, stored)))
    ensures Changes(w, e) && Joins(w, e) ==>
              Step(w, e).journal == w.journal && (Step(w, e).up ==> Step(w, e).trial == w.trial)
  {
    hide Encoded, Loaded, Begin, Save, Protect;
    if MayWrite(w, e.header, e.guardAt) {
      var admitted := Log(w, Admitted(e.header, e.guardAt, e.needed));
      ProtectIs(admitted, e, stored);
      var ran := Protect(admitted, e.header, e.needed, e.protectAt, e.begin);
      if ran.ok && e.change.Some? { SaveIs(ran.w, Set(stored, e.change.value.name, e.change.value.raw), e.change.value.save); }
    }
  }

  lemma SaveIs(w: World, d: Document, outcome: Outcome)
    ensures var now := Save(w, d, outcome).w;
            && now.disk == (if Landed(outcome) then Saved(w.disk, d) else w.disk)
            && now.journal == w.journal
            && (outcome == Done || outcome == Refused ==> now.up == w.up && now.trial == w.trial)
            && (outcome == DiedBefore || outcome == DiedAfter ==> !now.up)
  {
    hide Saved;
  }

  lemma ProtectIs(w: World, e: Event, stored: Document)
    requires w.up && e.Edit? && Loaded(w.disk) == Success(stored) && MayWrite(w, e.header, e.guardAt)
    requires w.trial.Some? && w.trial.value.phase == Pending ==> w.trial.value.id != ""
    ensures var ran := Protect(w, e.header, e.needed, e.protectAt, e.begin);
            && ran.w.disk == w.disk
            && (ran.ok <==> (e.needed ==> Begins(w, e) || Joins(w, e)))
            && (ran.ok && !Begins(w, e) ==> ran.w == w)
            && (ran.ok && Begins(w, e) ==>
                  ran.w.up && ran.w.trial == Some(TrialOf(w, e.begin, stored)) && ran.w.journal == Present(TrialOf(w, e.begin, stored)))
  {
    hide Encoded, Loaded, Begin;
    BeginIs(w, e.begin, stored);
  }

  lemma NamelessIsUnreadable(w: World, doc: Document)
    requires Inv(w, doc)
    ensures w.trial.Some? && w.trial.value.phase == Pending ==> w.trial.value.id != ""
  {}

  lemma ChangeStored(w: World, stored: Document, name: string, raw: Value)
    requires Settled(w.disk.modules, stored) && SCHEMA_KEY !in w.disk.modules && name in w.disk.modules
    ensures Loaded(Saved(w.disk, Set(stored, name, raw))) == Success(Set(stored, name, raw))
    ensures Set(stored, name, raw).keys == stored.keys[name := raw]
  {
    hide Encoded, Decoded, Settled;
    SetSettled(w.disk.modules, stored, name, raw);
    RoundTrip(w.disk.modules, Set(stored, name, raw));
  }

  /** The record a beginning writes. */
  lemma BeginsNew(w: World, io: BeginIo, stored: Document)
    requires Loaded(w.disk) == Success(stored) && Settled(w.disk.modules, stored)
    ensures io.capture.Some? ==>
              NewTrial(w, io, Record(io.nonce, io.now + (if io.timeout == 0 then TWO_MINUTES else io.timeout), Pending,
                                     Encoded(w.disk.modules, stored), [], io.capture.value))
  {
    hide Encoded, Decoded, Settled, Loaded;
    RoundTrip(w.disk.modules, stored);
  }

  // ----- a restore -----

  /** The uploaded document can be restored: nothing is on trial, and the trial it needs begins. */
  predicate Restores(w: World, e: Event)
    requires e.Restore?
  {
    w.trial.None? && !e.roll.NoRollback? && e.load && e.begin.load && e.begin.capture.Some? && e.begin.persist == Done
  }

  /** A restore that broke half way is reverted at once. */
  lemma BrokenRestore(w: World, doc: Document, e: Event)
    requires Reached(w, doc) && w.up && e.Restore? && Settled(w.disk.modules, e.doc) && Restores(w, e) && e.roll.RollFailed?
    ensures var over := e.revert.load && e.revert.persist.Done? && e.revert.roll.RolledAll? && e.revert.remove.Done?;
            && (Step(w, e).up && Step(w, e).trial.None? <==> over)
            && (over ==> Loaded(Step(w, e).disk) == Loaded(w.disk))
  {
    ReachedInv(w, doc);
    StoredIs(w, doc);
    var stored := Scan(w.trace, doc).stored;
    var admitted := Log(w, Admitted(e.header, e.guardAt, true));
    AdmittedKeeps(w, e.header, e.guardAt, true, doc);
    BeginKeeps(admitted, e.begin, doc);
    BeginIs(admitted, e.begin, stored);
    var begun := Begin(admitted, e.begin).w;
    RestoreSaves(begun, e.doc, doc);
    var at := if e.roll.saved then Save(begun, e.doc, Done).w else begun;
    BrokenStep(w, e, at);
    OpenIsCaptured(w, doc, begun, stored, e.doc);
    hide Reached, Inv, Scan, Encoded, Decoded, Settled, Loaded, Begin, Revert, Step, Save;
    RevertEnds(at, RestoreBroke, e.revert, doc);
  }

  lemma BrokenStep(w: World, e: Event, at: World)
    requires w.up && e.Restore? && Settled(w.disk.modules, e.doc) && Restores(w, e) && e.roll.RollFailed? && Loaded(w.disk).Success?
    requires var ran := Begin(Log(w, Admitted(e.header, e.guardAt, true)), e.begin);
             ran.ok && at == if e.roll.saved then Save(ran.w, e.doc, Done).w else ran.w
    ensures Step(w, e) == Revert(at, RestoreBroke, e.revert).w
  {
    hide Encoded, Decoded, Settled, Loaded, Begin, Revert, Save;
  }

  /** The trial of a restore, seen by the monitor before and after the forward save. */
  lemma OpenIsCaptured(w: World, doc: Document, begun: World, stored: Document, target: Document)
    requires Inv(begun, doc) && begun.trial.Some? && begun.trial.value.id != "" && begun.trial.value.from == []
    requires begun.trial.value.before == Encoded(begun.disk.modules, stored) && Settled(begun.disk.modules, stored)
    ensures Scan(begun.trace, doc).open.Some? && Scan(begun.trace, doc).open.value.before == stored
    ensures var saved := Save(begun, target, Done).w;
            && Scan(saved.trace, doc).open == Scan(begun.trace, doc).open && saved.trial == begun.trial && saved.up == begun.up
  {
    hide Encoded, Decoded, Settled;
    ScanAppend(begun.trace, Saving(target), doc);
    RevertReadsBefore(begun, doc);
    RoundTrip(begun.disk.modules, stored);
  }

  lemma RevertReadsBefore(w: World, doc: Document)
    requires Inv(w, doc) && w.trial.Some? && w.trial.value.id != ""
    ensures Scan(w.trace, doc).open.Some?
    ensures Decoded(w.disk.modules, w.trial.value.before) == Success(Scan(w.trace, doc).open.value.before)
  {
    hide Encoded, Decoded, Settled;
    RoundTrip(w.disk.modules, Scan(w.trace, doc).open.value.before);
  }

  /** A restore whose forward action succeeds leaves the uploaded document stored, on a trial that captured what was
      stored before; one whose action fails is reverted at once; one that finds a trial open, or cannot begin its own,
      changes neither the disk nor memory. */
  lemma RestoreMeans(w: World, doc: Document, e: Event)
    requires Reached(w, doc) && w.up && e.Restore? && Settled(w.disk.modules, e.doc)
    ensures Restores(w, e) && e.roll.RolledAll? ==>
              && Loaded(Step(w, e).disk) == Success(e.doc) && Step(w, e).up
              && Step(w, e).journal.Present? && NewTrial(w, e.begin, Step(w, e).journal.record)
              && Step(w, e).trial == Some(Step(w, e).journal.record)
    ensures !Restores(w, e) ==> Step(w, e).disk == w.disk && (Step(w, e).up ==> Step(w, e).trial == w.trial)
    ensures Restores(w, e) && e.roll.RollFailed? ==>
              var over := e.revert.load && e.revert.persist.Done? && e.revert.roll.RolledAll? && e.revert.remove.Done?;
              && (Step(w, e).up && Step(w, e).trial.None? <==> over)
              && (over ==> Loaded(Step(w, e).disk) == Loaded(w.disk))
  {
    if Restores(w, e) && e.roll.RollFailed? { BrokenRestore(w, doc, e); }
    ReachedInv(w, doc);
    StoredIs(w, doc);
    var stored := Scan(w.trace, doc).stored;
    hide Reached, Inv, Scan, Encoded, Decoded, Settled, Loaded, Begin, Revert;
    var admitted := Log(w, Admitted(e.header, e.guardAt, true));
    BeginIs(admitted, e.begin, stored);
    BeginsNew(w, e.begin, stored);
    RoundTrip(w.disk.modules, e.doc);
    LoadedSaved(w.disk, e.doc);
  }

  lemma LoadedSaved(disk: Disk, d: Document)
    ensures Loaded(Saved(disk, d)) == Decoded(disk.modules, Encoded(disk.modules, d))
  {
    hide Encoded, Decoded;
  }

  // ----- confirming, reverting and waiting -----

  /** A confirmation ends the trial exactly when it names it, comes in time and before any revert, and the journal can
      be removed; what is stored stays. Any other confirmation of a machine changes nothing. */
  lemma ConfirmMeans(w: World, doc: Document, id: string, at: int, remove: Outcome)
    requires Reached(w, doc) && w.up
    ensures var now := Step(w, Confirm(id, at, remove));
            var mine := w.trial.Some? && w.trial.value.phase == Pending && w.trial.value.id == id && at < w.trial.value.deadline;
            && now.disk == w.disk
            && (w.trial.Some? && now.up && now.trial.None? <==> mine && remove == Done)
            && (now.journal.Absent? <==> w.journal.Absent? || (mine && Landed(remove)))
            && (!mine ==> now == w)
  {
    ReachedInv(w, doc);
    NamelessIsUnreadable(w, doc);
    hide Reached, Inv;
  }

  /** A requested revert does what any revert does if it names the trial, and else nothing. */
  lemma RevertNowMeans(w: World, doc: Document, id: string, io: RevertIo)
    requires Reached(w, doc) && w.up
    ensures var now := Step(w, RevertNow(id, io));
            if w.trial.Some? && id != "" && w.trial.value.id == id then
              && (now.up && now.trial.None? <==> Unhindered(w.trial.value, io))
              && (now.up && now.trial.None? ==> Restored(w, now, doc))
              && (now.up && now.trial.Some? ==> StillOnTrial(w.trial.value, now))
            else now == w
  {
    ReachedInv(w, doc);
    RevertNowIs(w, id, io);
    hide Reached, Inv, Revert, Step, Restored, StillOnTrial, Unhindered;
    if w.trial.Some? && id != "" && w.trial.value.id == id { RevertEnds(w, Asked, io, doc); }
  }

  lemma RevertNowIs(w: World, id: string, io: RevertIo)
    requires w.up
    ensures Step(w, RevertNow(id, io)) ==
            if w.trial.Some? && id != "" && w.trial.value.id == id then Revert(w, Asked, io).w else w
  {
    hide Revert;
  }

  /** The timer acts only past the deadline, which it reads again under the lock: a trial ended or prolonged in between
      is left alone. */
  lemma TimerWaits(w: World, at: int, later: int, io: RevertIo)
    requires w.up && (w.trial.None? || at < w.trial.value.deadline)
    ensures !w.queued ==> Step(Step(w, Tick(at)), TimerFires(later, io)) == w
    ensures Step(w, TimerFires(at, io)) == w.(queued := false)
  {}

  /** A background reapply rewrites what is stored. */
  lemma ReapplyMeans(w: World, doc: Document, save: Outcome)
    requires Reached(w, doc) && w.up
    ensures Loaded(Step(w, Reapply(save)).disk) == Loaded(w.disk)
    ensures Step(w, Reapply(save)).journal == w.journal && (save == Done ==> Step(w, Reapply(save)).trial == w.trial)
  {
    ReachedInv(w, doc);
    StoredIs(w, doc);
    var stored := Scan(w.trace, doc).stored;
    hide Reached, Inv, Scan, Encoded, Decoded, Settled, Loaded;
    RoundTrip(w.disk.modules, stored);
    LoadedSaved(w.disk, stored);
  }

  /** A failed rollback is retried ten seconds later, and until it is over no guarded write is admitted. */
  lemma FailureBacksOff(w: World, doc: Document, cause: Cause, io: RevertIo)
    requires Inv(w, doc) && w.up && w.trial.Some? && w.trial.value.id != ""
    requires (w.trial.value.from != [] || io.load) && io.persist.Done? && (io.roll.RollFailed? || io.roll.NoRollback?)
    requires Revert(w, cause, io).w.up
    ensures var now := Revert(w, cause, io).w;
            && now.trial.Some? && now.trial.value.phase == Failed && now.trial.value.deadline == io.now + 10
            && now.journal.Present? && (io.persistFailure == Done ==> now.journal.record == now.trial.value)
            && forall header, at :: !MayWrite(now, header, at)
  {
    hide Encoded, Decoded, Loaded, Scan, Inv, RollBack, Revert, RevertFrom;
    RevertReads(w, io, doc);
    FromIsThere(w, doc, io);
    var t := w.trial.value;
    var from := RevertFrom(w, t, io).value;
    var before, source := Decoded(w.disk.modules, t.before).value, Decoded(w.disk.modules, from).value;
    var t' := t.(from := from, phase := Recovering);
    var journalled := Log(w.(journal := Present(t')), if t.from == [] then Journalled(cause, source) else Retried(cause));
    RevertGoesOn(w, cause, io);
    BacksOff(journalled.(trial := Some(t')), t', source, before, io);
  }

  lemma FromIsThere(w: World, doc: Document, io: RevertIo)
    requires Inv(w, doc) && w.trial.Some? && (w.trial.value.from != [] || io.load)
    ensures RevertFrom(w, w.trial.value, io).Success?
  {
    StoredIs(w, doc);
    hide Encoded, Loaded, Inv;
  }

  /** A revert that has journalled itself goes on to the rollback. */
  lemma RevertGoesOn(w: World, cause: Cause, io: RevertIo)
    requires w.trial.Some? && io.persist.Done? && Decoded(w.disk.modules, w.trial.value.before).Success?
    requires RevertFrom(w, w.trial.value, io).Success?
    requires Decoded(w.disk.modules, RevertFrom(w, w.trial.value, io).value).Success?
    ensures var t := w.trial.value;
            var from := RevertFrom(w, t, io).value;
            var before, source := Decoded(w.disk.modules, t.before).value, Decoded(w.disk.modules, from).value;
            var t' := t.(from := from, phase := Recovering);
            var journalled := Log(w.(journal := Present(t')), if t.from == [] then Journalled(cause, source) else Retried(cause));
            Revert(w, cause, io) == RollBack(journalled.(trial := Some(t')), t', source, before, io)
  {
    hide Decoded, RevertFrom, RollBack;
  }

  lemma BacksOff(w: World, t: Record, source: Document, before: Document, io: RevertIo)
    requires w.journal.Present? && (io.roll.RollFailed? || io.roll.NoRollback?)
    ensures var now := RollBack(w, t, source, before, io).w;
            now.up ==>
              && now.trial.Some? && now.trial.value.phase == Failed && now.trial.value.deadline == io.now + 10
              && now.journal.Present? && (io.persistFailure == Done ==> now.journal.record == now.trial.value)
  {
    hide Saved;
  }

  /** The guard is the rule. */
  lemma GuardMeans(w: World, header: string, at: int)
    ensures Guard(w, header, at) <==> MayWrite(w, header, at)
  {}

  /** A start without a journal is ready at once; one that cannot read the journal keeps everything as it is and admits
      nothing until a start that can. */
  lemma StartMeans(w: World, doc: Document, readable: bool, io: RevertIo)
    requires Reached(w, doc) && !w.up && !w.journal.Present?
    ensures var now := Step(w, Restart(readable, io));
            && now.up && now.disk == w.disk && now.journal == w.journal
            && (readable && w.journal.Absent? ==> now.trial.None? && forall header, at :: MayWrite(now, header, at))
            && (!readable || w.journal.Unreadable? ==> forall header, at :: !MayWrite(now, header, at))
  {
    ReachedInv(w, doc);
    hide Reached;
  }
}
