/** The connectivity trial of internal/core/recovery.go as a state machine.

    Every source of nondeterminism is an argument: what each disk step did, what the clock said each
    time it was read, what the rollback did, and where the process died. A clock reading is any integer,
    so nothing here relies on the clock moving forward. Operations that hold the apply lock are single
    steps, because the lock excludes the others; the timer's unlocked look is a step of its own, so that
    anything may happen between that look and the lock. */
module RecoverySpec {
  import opened Wrappers
  import opened Json
  import opened Store

  datatype Phase = Pending | Recovering | Failed

  /** What the journal holds, and what memory holds of it. An empty `from` is a trial no revert has journalled. */
  datatype Record = Record(id: string, deadline: int, phase: Phase, before: seq<Token>, from: seq<Token>, runtime: string)

  datatype Journal = Absent | Unreadable | Present(record: Record)

  /** The record memory keeps when the journal could not be read: it has no identity, so nothing can confirm it. */
  const UNREADABLE := Record("", 0, Failed, [], [], "")

  datatype World = World(
    up: bool,
    trial: Option<Record>,
    journal: Journal,
    disk: Disk,
    queued: bool,
    trace: seq<Entry>)

  // ----- what may happen to one step -----

  /** An atomic disk step: done, refused, or the process died before or after it took effect. */
  datatype Outcome = Done | Refused | DiedBefore | DiedAfter

  /** The rollback action: it may save the target document early and still fail or die. */
  datatype Roll = RolledAll | RollFailed(saved: bool) | RollDied(saved: bool) | NoRollback

  type Nonce = s: string | s != "" witness "0"

  datatype BeginIo = BeginIo(load: bool, nonce: Nonce, now: int, timeout: int, capture: Option<string>, persist: Outcome)

  datatype RevertIo = RevertIo(load: bool, persist: Outcome, roll: Roll, remove: Outcome, now: int, persistFailure: Outcome)

  datatype Change = Change(name: string, raw: Value, load: bool, save: Outcome)

  datatype Cause = Timer(at: int) | Asked | Rebooted | RestoreBroke

  // ----- the record of a run -----

  datatype Entry =
    | Begun(id: string, deadline: int, before: Document, runtime: string)
    | Admitted(header: string, at: int, needed: bool)
    | Saving(doc: Document)
    | Journalled(cause: Cause, from: Document)
    | Retried(cause: Cause)
    | RollbackCalled(from: Document, before: Document, runtime: string)
    | Confirmed(at: int)
    | RolledBack
    | Booted(readable: bool)

  function Log(w: World, e: Entry): World {
    w.(trace := w.trace + [e])
  }

  function Crashed(w: World): World {
    w.(up := false, trial := None, queued := false)
  }

  /** A result that also says whether the Go function returned nil. */
  datatype Ran = Ran(w: World, ok: bool)

  /** The effect of an atomic disk step that turns `w` into `after`. */
  function Effect(w: World, after: World, outcome: Outcome): Ran {
    match outcome
    case Done => Ran(after, true)
    case Refused => Ran(w, false)
    case DiedBefore => Ran(Crashed(w), false)
    case DiedAfter => Ran(Crashed(after), false)
  }

  ghost function Save(w: World, doc: Document, outcome: Outcome): Ran {
    Effect(w, Log(w.(disk := Saved(w.disk, doc)), Saving(doc)), outcome)
  }

  // ----- the operations -----

  const TWO_MINUTES := 120
  const RETRY_AFTER := 10

  ghost function Begin(w: World, io: BeginIo): Ran {
    if w.trial.Some? then Ran(w, false)
    else if !io.load then Ran(w, false)
    else match Loaded(w.disk)
      case Failure => Ran(w, false)
      case Success(doc) =>
        var timeout := if io.timeout == 0 then TWO_MINUTES else io.timeout;
        match io.capture
        case None => Ran(w, false)
        case Some(runtime) =>
          var t := Record(io.nonce, io.now + timeout, Pending, Encoded(w.disk.modules, doc), [], runtime);
          var after := Log(w.(journal := Present(t)), Begun(t.id, t.deadline, doc, runtime));
          var ran := Effect(w, after, io.persist);
          if ran.ok then Ran(ran.w.(trial := Some(t)), true) else ran
  }

  function Clear(w: World, end: Entry, remove: Outcome): Ran {
    var ran := Effect(w, Log(w.(journal := Absent), end), remove);
    if ran.ok then Ran(ran.w.(trial := None), true) else ran
  }

  /** The document a revert starts from: journalled by an earlier attempt, or read now. */
  ghost function RevertFrom(w: World, t: Record, io: RevertIo): Result<seq<Token>> {
    if t.from != [] then Success(t.from)
    else if !io.load then Failure
    else match Loaded(w.disk)
      case Failure => Failure
      case Success(doc) => Success(Encoded(w.disk.modules, doc))
  }

  ghost function Revert(w: World, cause: Cause, io: RevertIo): Ran {
    if w.trial.None? then Ran(w, true)
    else
      var t := w.trial.value;
      var from := RevertFrom(w, t, io);
      match Decoded(w.disk.modules, t.before)
      case Failure => Ran(w, false)
      case Success(before) =>
        if from.Failure? then Ran(w, false)
        else match Decoded(w.disk.modules, from.value)
          case Failure => Ran(w, false)
          case Success(source) =>
            var t' := t.(from := from.value, phase := Recovering);
            var entry := if t.from == [] then Journalled(cause, source) else Retried(cause);
            var ran := Effect(w, Log(w.(journal := Present(t')), entry), io.persist);
            if !ran.ok then ran else RollBack(ran.w.(trial := Some(t')), t', source, before, io)
  }

  /** The second half of a revert, after the journal names the source document. */
  ghost function RollBack(w: World, t: Record, source: Document, before: Document, io: RevertIo): Ran {
    var called := if io.roll.NoRollback? then w else Log(w, RollbackCalled(source, before, t.runtime));
    match io.roll
    case RolledAll =>
      Clear(Save(called, before, Done).w, RolledBack, io.remove)
    case RollDied(saved) =>
      Ran(Crashed(if saved then Save(called, before, Done).w else called), false)
    case RollFailed(saved) =>
      MarkFailed(if saved then Save(called, before, Done).w else called, t, io)
    case NoRollback =>
      MarkFailed(called, t, io)
  }

  function MarkFailed(w: World, t: Record, io: RevertIo): Ran {
    var t' := t.(phase := Failed, deadline := io.now + RETRY_AFTER);
    var held := w.(trial := Some(t'));
    Ran(Effect(held, held.(journal := Present(t')), io.persistFailure).w, false)
  }

  /** Startup: the journal is read, and a trial found there is reverted at once. */
  ghost function Load(w: World, readable: bool, io: RevertIo): World {
    var w := w.(up := true);
    if readable && w.journal.Absent? then Log(w, Booted(true))
    else if readable && w.journal.Present? && w.journal.record.id != "" && w.journal.record.before != [] &&
            Decoded(w.disk.modules, w.journal.record.before).Success? then
      Revert(Log(w, Booted(true)).(trial := Some(w.journal.record)), Rebooted, io).w
    else Log(w, Booted(false)).(trial := Some(UNREADABLE))
  }

  /** `WithMutationGuard`'s check, run after the lock is taken. */
  predicate Guard(w: World, header: string, at: int) {
    w.trial.None? || (w.trial.value.phase == Pending && at < w.trial.value.deadline && header == w.trial.value.id)
  }

  ghost function Protect(w: World, header: string, needed: bool, at: int, io: BeginIo): Ran {
    if !needed then Ran(w, true)
    else if header != "" && w.trial.Some? && w.trial.value.id == header && w.trial.value.phase == Pending &&
            at < w.trial.value.deadline then Ran(w, true)
    else Begin(w, io)
  }

  // ----- the steps of a run -----

  datatype Event =
    | Edit(header: string, guardAt: int, needed: bool, protectAt: int, begin: BeginIo, change: Option<Change>)
    | Restore(header: string, guardAt: int, load: bool, doc: Document, begin: BeginIo, roll: Roll, revert: RevertIo)
    | Reapply(save: Outcome)
    | Confirm(id: string, at: int, remove: Outcome)
    | RevertNow(id: string, io: RevertIo)
    | Tick(at: int)
    | TimerFires(at: int, io: RevertIo)
    | Crash
    | Restart(readable: bool, io: RevertIo)
    | Corrupt

  ghost function DoEdit(w: World, e: Event): World
    requires e.Edit?
  {
    if !Guard(w, e.header, e.guardAt) then w
    else
      var ran := Protect(Log(w, Admitted(e.header, e.guardAt, e.needed)), e.header, e.needed, e.protectAt, e.begin);
      if !ran.ok || e.change.None? then ran.w
      else
        var c := e.change.value;
        var doc := Loaded(ran.w.disk);
        if c.name !in w.disk.modules || !c.load || doc.Failure? then ran.w
        else Save(ran.w, Set(doc.value, c.name, c.raw), c.save).w
  }

  /** The second client of the protocol: a full restore runs the rollback action itself, towards the uploaded
      document, and falls back to a revert. */
  ghost function DoRestore(w: World, e: Event): World
    requires e.Restore?
  {
    if !Guard(w, e.header, e.guardAt) then w
    else
      var w := Log(w, Admitted(e.header, e.guardAt, true));
      if e.roll.NoRollback? || !Settled(w.disk.modules, e.doc) || !e.load || Loaded(w.disk).Failure? then w
      else
        var ran := Begin(w, e.begin);
        if !ran.ok then ran.w
        else match e.roll
          case RolledAll => Save(ran.w, e.doc, Done).w
          case RollDied(saved) => Crashed(if saved then Save(ran.w, e.doc, Done).w else ran.w)
          case RollFailed(saved) =>
            Revert(if saved then Save(ran.w, e.doc, Done).w else ran.w, RestoreBroke, e.revert).w
          case NoRollback => w
  }

  ghost function DoConfirm(w: World, id: string, at: int, remove: Outcome): World {
    if id == "" || w.trial.None? || w.trial.value.id != id then w
    else if w.trial.value.phase != Pending || at >= w.trial.value.deadline then w
    else Clear(w, Confirmed(at), remove).w
  }

  ghost function DoTimer(w: World, at: int, io: RevertIo): World {
    if !w.queued then w
    else if w.trial.None? || at < w.trial.value.deadline then w.(queued := false)
    else Revert(w.(queued := false), Timer(at), io).w
  }

  /** A step of a process that is running. */
  ghost function RunningStep(w: World, e: Event): World {
    match e
    case Edit(_, _, _, _, _, _) => DoEdit(w, e)
    case Restore(_, _, _, _, _, _, _) => DoRestore(w, e)
    case Reapply(save) =>
      if Loaded(w.disk).Failure? then w else Save(w, Loaded(w.disk).value, save).w
    case Confirm(id, at, remove) => DoConfirm(w, id, at, remove)
    case RevertNow(id, io) =>
      if id == "" || w.trial.None? || w.trial.value.id != id then w else Revert(w, Asked, io).w
    case Tick(at) =>
      if w.trial.None? || w.trial.value.id == "" || at < w.trial.value.deadline then w else w.(queued := true)
    case TimerFires(at, io) => DoTimer(w, at, io)
    case Crash => Crashed(w)
    case _ => w
  }

  ghost function Step(w: World, e: Event): World {
    if e.Corrupt? then w.(journal := Unreadable)
    else if e.Restart? then (if w.up then w else Load(w, e.readable, e.io))
    else if w.up then RunningStep(w, e)
    else w
  }

  ghost function Run(w: World, events: seq<Event>): World {
    if events == [] then w else Step(Run(w, events[..|events| - 1]), events[|events| - 1])
  }

  /** A machine that has never run a trial: no journal, a readable configuration file, not started yet. */
  ghost predicate Fresh(w: World, doc: Document) {
    && !w.up && w.trial.None? && !w.queued && w.trace == [] && w.journal.Absent?
    && SCHEMA_KEY !in w.disk.modules
    && Loaded(w.disk) == Success(doc)
  }
}
