/** The promises of the connectivity trial, read off the trace of an arbitrary run. */
module RecoveryRuns {
  import opened Wrappers
  import opened Store
  import Json
  import opened RecoverySpec
  import opened RecoverySafety

  predicate Ends(e: Entry) {
    e.Confirmed? || e.RolledBack?
  }

  lemma {:induction false} LawfulPrefix(trace: seq<Entry>, doc: Document, i: nat)
    requires Scan(trace, doc).lawful && i <= |trace|
    ensures Scan(trace[..i], doc).lawful
    ensures i < |trace| ==> Lawful(Scan(trace[..i], doc), trace[i])
    ensures i < |trace| ==> Scan(trace[..i + 1], doc) == After(Scan(trace[..i], doc), trace[i])
    decreases |trace| - i
  {
    hide Encoded, Decoded, Settled, Lawful;
    if i == |trace| {
      assert trace[..i] == trace;
    } else {
      LawfulPrefix(trace, doc, i + 1);
      assert trace[..i + 1][..i] == trace[..i];
    }
  }

  /** What one lawful entry does to the open trial. */
  ghost predicate Moved(m: Monitor, e: Entry, n: Monitor) {
    && (e.Begun? ==> m.open.None? && n.open == Some(Open(e.id, e.deadline, e.before, e.runtime, None)))
    && (Ends(e) ==> m.open.Some? && n.open.None?)
    && (e.Journalled? ==> m.open.Some? && m.open.value.from.None? && e.from == m.stored &&
                          n.open == Some(m.open.value.(from := Some(e.from))))
    && (!e.Begun? && !Ends(e) && !e.Journalled? ==> n.open == m.open)
    && n.grant == (if e.Admitted? then (if e.needed then OnTrial else Free) else if e.Begun? then m.grant else NoGrant)
    && (n.rolled <==> e.RollbackCalled? || (e.Saving? && m.rolled))
  }

  lemma LawfulMoves(trace: seq<Entry>, doc: Document, i: nat)
    requires Scan(trace, doc).lawful && i < |trace|
    ensures Moved(Scan(trace[..i], doc), trace[i], Scan(trace[..i + 1], doc))
  {
    hide Scan, Lawful, After, Moved;
    LawfulPrefix(trace, doc, i);
    EntryMoves(Scan(trace[..i], doc), trace[i]);
  }

  lemma EntryMoves(m: Monitor, e: Entry)
    requires Lawful(m, e)
    ensures Moved(m, e, After(m, e))
  {
    hide Settled;
  }

  /** After a trial's beginning, and as long as nothing ends it, it is the open trial. */
  lemma {:induction false} StaysOpen(trace: seq<Entry>, doc: Document, b: nat, i: nat)
    requires Scan(trace, doc).lawful && b < i <= |trace| && trace[b].Begun?
    requires forall k :: b < k < i ==> !Ends(trace[k])
    ensures var open := Scan(trace[..i], doc).open;
            && open.Some?
            && open.value.id == trace[b].id && open.value.deadline == trace[b].deadline
            && open.value.before == trace[b].before && open.value.runtime == trace[b].runtime
    ensures forall k :: b < k < i ==> !trace[k].Begun?
  {
    hide Scan;
    LawfulMoves(trace, doc, i - 1);
    if i > b + 1 { StaysOpen(trace, doc, b, i - 1); }
  }

  /** Between endings there are no other endings without a beginning. */
  lemma {:induction false} StaysClosed(trace: seq<Entry>, doc: Document, e: nat, i: nat)
    requires Scan(trace, doc).lawful && e < i <= |trace| && Ends(trace[e])
    requires forall k :: e < k < i ==> !trace[k].Begun?
    ensures Scan(trace[..i], doc).open.None?
    ensures forall k :: e < k < i ==> !Ends(trace[k])
  {
    hide Scan;
    LawfulMoves(trace, doc, i - 1);
    if i > e + 1 { StaysClosed(trace, doc, e, i - 1); }
  }

  /** From its first journalled revert on, a trial's source document is the one stored at that moment. */
  lemma {:induction false} SourceStays(trace: seq<Entry>, doc: Document, b: nat, j: nat, i: nat)
    requires Scan(trace, doc).lawful && b < j < i <= |trace| && trace[b].Begun? && trace[j].Journalled?
    requires forall k :: b < k < i ==> !Ends(trace[k])
    ensures Scan(trace[..i], doc).open.Some?
    ensures Scan(trace[..i], doc).open.value.from == Some(trace[j].from)
    ensures trace[j].from == Scan(trace[..j], doc).stored
    ensures forall k :: j < k < i ==> !trace[k].Journalled?
  {
    hide Scan;
    LawfulMoves(trace, doc, i - 1);
    StaysOpen(trace, doc, b, i);
    if i > j + 1 { SourceStays(trace, doc, b, j, i - 1); }
  }

  /** Before any journalled revert there is no source document. */
  lemma {:induction false} NoSource(trace: seq<Entry>, doc: Document, b: nat, i: nat)
    requires Scan(trace, doc).lawful && b < i <= |trace| && trace[b].Begun?
    requires forall k :: b < k < i ==> !Ends(trace[k]) && !trace[k].Journalled?
    ensures Scan(trace[..i], doc).open.Some? && Scan(trace[..i], doc).open.value.from.None?
  {
    hide Scan;
    LawfulMoves(trace, doc, i - 1);
    StaysOpen(trace, doc, b, i);
    if i > b + 1 { NoSource(trace, doc, b, i - 1); }
  }

  // ----- what the trace of a lawful run says -----

  /** No trial ends twice, and none begins before the one ahead of it has ended. */
  ghost predicate Alternates(trace: seq<Entry>) {
    && (forall i, j :: 0 <= i < j < |trace| && Ends(trace[i]) && Ends(trace[j]) ==>
          exists k :: i < k < j && trace[k].Begun?)
    && (forall i, j :: 0 <= i < j < |trace| && trace[i].Begun? && trace[j].Begun? ==>
          exists k :: i < k < j && Ends(trace[k]))
  }

  /** Position `i` belongs to the trial begun at `b`. */
  ghost predicate During(trace: seq<Entry>, b: int, i: int) {
    0 <= b < i < |trace| && trace[b].Begun? && forall k :: b < k < i ==> !Ends(trace[k])
  }

  /** A confirmation comes strictly before the deadline its trial was given, and never once a revert was journalled. */
  ghost predicate ConfirmsInTime(trace: seq<Entry>) {
    forall b, i :: During(trace, b, i) && trace[i].Confirmed? ==>
      trace[i].at < trace[b].deadline && forall k :: b < k < i ==> !trace[k].Journalled?
  }

  /** Every rollback of a trial, over all retries and crashes, goes from the document stored when the trial's
      first revert was journalled to the document stored when the trial began. */
  ghost predicate RollsBackToTheStart(trace: seq<Entry>, doc: Document) {
    forall b, i :: During(trace, b, i) && trace[i].RollbackCalled? ==>
      && trace[i].before == trace[b].before == Scan(trace[..b], doc).stored
      && trace[i].runtime == trace[b].runtime
      && exists j :: b < j < i && trace[j].Journalled? && trace[i].from == trace[j].from == Scan(trace[..j], doc).stored
  }

  /** A guarded write is admitted during a trial only by the trial's id, strictly before its deadline and with no
      revert journalled, and never while the journal could not be read. */
  ghost predicate AdmitsInTime(trace: seq<Entry>) {
    && (forall b, i :: During(trace, b, i) && trace[i].Admitted? ==>
          && trace[i].header == trace[b].id && trace[i].at < trace[b].deadline
          && forall k :: b < k < i ==> !trace[k].Journalled?)
    && (forall k, i :: 0 <= k < i < |trace| && trace[k] == Booted(false) && trace[i].Admitted? ==>
          exists j :: k < j < i && trace[j] == Booted(true))
  }

  /** Where the write at `i` was admitted: directly before, or before the beginning of its trial. */
  predicate AdmittedAt(trace: seq<Entry>, i: int, a: int) {
    && 0 <= a < i < |trace| && trace[a].Admitted?
    && (a == i - 1 || (a == i - 2 && trace[i - 1].Begun?))
  }

  /** Whatever reaches the store anew was just admitted; and if it needs protection, it belongs to a trial that is not
      being reverted, that captured what was stored when it began, and that the write began or was admitted by. Once a
      revert has been journalled, all that reaches the store is the document its trial captured, and the rollback
      action brings it. */
  ghost predicate StoresWhatWasAdmitted(trace: seq<Entry>, doc: Document) {
    forall i :: 0 <= i < |trace| && trace[i].Saving? && trace[i].doc != Scan(trace[..i], doc).stored ==>
      if Reverting(trace, i) then exists b :: During(trace, b, i) && trace[i].doc == trace[b].before && ByRollback(trace, i)
      else exists a :: AdmittedAt(trace, i, a) && (trace[a].needed ==> exists b :: CoveredBy(trace, doc, a, b, i))
  }

  /** The write admitted at `a` and stored at `i` is on the trial begun at `b`. */
  ghost predicate CoveredBy(trace: seq<Entry>, doc: Document, a: int, b: int, i: int) {
    && 0 <= a < |trace| && trace[a].Admitted? && During(trace, b, i)
    && trace[b].before == Scan(trace[..b], doc).stored
    && (b == i - 1 || (trace[a].header == trace[b].id && trace[a].at < trace[b].deadline))
    && forall k :: b < k < i ==> !trace[k].Journalled?
  }

  /** Nothing but the rollback action's own saves lies between its call and `i`. */
  ghost predicate ByRollback(trace: seq<Entry>, i: int) {
    exists c :: 0 <= c < i < |trace| && trace[c].RollbackCalled? && forall k :: c < k < i ==> trace[k].Saving?
  }

  /** A trial is over by rollback only as the last step of a call of the action. */
  ghost predicate EndsByRollback(trace: seq<Entry>) {
    forall i :: 0 <= i < |trace| && trace[i].RolledBack? ==> ByRollback(trace, i)
  }

  /** A revert has been journalled for the trial that position `i` belongs to. */
  ghost predicate Reverting(trace: seq<Entry>, i: int) {
    exists b, j :: During(trace, b, i) && b < j < i && trace[j].Journalled?
  }

  lemma LawfulAdmits(trace: seq<Entry>, doc: Document)
    requires Scan(trace, doc).lawful
    ensures AdmitsInTime(trace)
  {
    forall b, i | During(trace, b, i) && trace[i].Admitted?
      ensures trace[i].header == trace[b].id && trace[i].at < trace[b].deadline
      ensures forall k :: b < k < i ==> !trace[k].Journalled?
    {
      StaysOpen(trace, doc, b, i);
      LawfulPrefix(trace, doc, i);
      if j :| b < j < i && trace[j].Journalled? {
        SourceStays(trace, doc, b, j, i);
      }
    }
    forall k, i | 0 <= k < i < |trace| && trace[k] == Booted(false) && trace[i].Admitted?
      ensures exists j :: k < j < i && trace[j] == Booted(true)
    {
      LawfulPrefix(trace, doc, i);
      if forall j :: k < j < i ==> trace[j] != Booted(true) { StaysBlocked(trace, doc, k, i); }
    }
  }

  lemma {:induction false} StaysBlocked(trace: seq<Entry>, doc: Document, k: nat, i: nat)
    requires k < i <= |trace| && trace[k] == Booted(false)
    requires forall j :: k < j < i ==> trace[j] != Booted(true)
    ensures Scan(trace[..i], doc).blocked
  {
    hide Lawful;
    assert trace[..i][..i - 1] == trace[..i - 1];
    if k < i - 1 { StaysBlocked(trace, doc, k, i - 1); }
  }

  /** An open trial began somewhere, and one with a source document has a journalled revert. */
  lemma {:induction false} OpenBegan(trace: seq<Entry>, doc: Document, i: nat) returns (b: nat)
    requires Scan(trace, doc).lawful && i < |trace| && Scan(trace[..i], doc).open.Some?
    ensures During(trace, b, i) && Scan(trace[..i], doc).open.value.before == trace[b].before
    ensures Scan(trace[..i], doc).open.value.from.Some? ==> exists j :: b < j < i && trace[j].Journalled?
  {
    assert i > 0;
    hide Scan;
    LawfulMoves(trace, doc, i - 1);
    if trace[i - 1].Begun? {
      b := i - 1;
    } else {
      b := OpenBegan(trace, doc, i - 1);
    }
  }

  lemma GrantFollows(trace: seq<Entry>, doc: Document, i: nat) returns (a: nat)
    requires Scan(trace, doc).lawful && i < |trace| && Scan(trace[..i], doc).grant != NoGrant
    ensures AdmittedAt(trace, i, a)
    ensures trace[a].needed <==> Scan(trace[..i], doc).grant == OnTrial
  {
    assert i > 0;
    hide Scan;
    LawfulMoves(trace, doc, i - 1);
    a := i - 1;
    if !trace[i - 1].Admitted? {
      NothingGranted(doc);
      assert trace[..0] == [];
      assert i > 1;
      LawfulMoves(trace, doc, i - 2);
      a := i - 2;
    }
  }

  lemma NothingGranted(doc: Document)
    ensures Scan([], doc).grant == NoGrant && !Scan([], doc).rolled && Scan([], doc).open.None?
  {}

  lemma {:induction false} RolledFollows(trace: seq<Entry>, doc: Document, i: nat)
    requires Scan(trace, doc).lawful && i < |trace| && Scan(trace[..i], doc).rolled
    ensures ByRollback(trace, i)
  {
    NothingGranted(doc);
    assert trace[..0] == [];
    hide Scan;
    LawfulMoves(trace, doc, i - 1);
    if !trace[i - 1].RollbackCalled? {
      RolledFollows(trace, doc, i - 1);
      var c :| 0 <= c < i - 1 && trace[c].RollbackCalled? && forall k :: c < k < i - 1 ==> trace[k].Saving?;
      assert forall k :: c < k < i ==> trace[k].Saving?;
    }
  }

  /** A write that needs protection, saved while a trial is open. */
  lemma SaveIsCovered(trace: seq<Entry>, doc: Document, a: nat, i: nat)
    requires Scan(trace, doc).lawful && AdmittedAt(trace, i, a)
    requires Scan(trace[..i], doc).open.Some? && Scan(trace[..i], doc).open.value.from.None?
    ensures exists b :: CoveredBy(trace, doc, a, b, i)
  {
    var b := OpenBegan(trace, doc, i);
    BegunCaptures(trace, doc, b);
    if b < i - 1 {
      assert During(trace, b, a);
      LawfulAdmits(trace, doc);
    }
    hide Scan;
    if j :| b < j < i && trace[j].Journalled? { SourceStays(trace, doc, b, j, i); }
    assert CoveredBy(trace, doc, a, b, i);
  }

  lemma BegunCaptures(trace: seq<Entry>, doc: Document, b: nat)
    requires Scan(trace, doc).lawful && b < |trace| && trace[b].Begun?
    ensures trace[b].before == Scan(trace[..b], doc).stored
  {
    LawfulPrefix(trace, doc, b);
    hide Scan;
  }

  lemma LawfulStores(trace: seq<Entry>, doc: Document)
    requires Scan(trace, doc).lawful
    ensures StoresWhatWasAdmitted(trace, doc)
  {
    forall i | 0 <= i < |trace| && trace[i].Saving? && trace[i].doc != Scan(trace[..i], doc).stored
      ensures if Reverting(trace, i) then exists b :: During(trace, b, i) && trace[i].doc == trace[b].before && ByRollback(trace, i)
              else exists a :: AdmittedAt(trace, i, a) && (trace[a].needed ==> exists b :: CoveredBy(trace, doc, a, b, i))
    {
      SavedLawfully(trace, doc, i);
    }
  }

  lemma SavedLawfully(trace: seq<Entry>, doc: Document, i: nat)
    requires Scan(trace, doc).lawful && i < |trace| && trace[i].Saving? && trace[i].doc != Scan(trace[..i], doc).stored
    ensures if Reverting(trace, i) then exists b :: During(trace, b, i) && trace[i].doc == trace[b].before && ByRollback(trace, i)
            else exists a :: AdmittedAt(trace, i, a) && (trace[a].needed ==> exists b :: CoveredBy(trace, doc, a, b, i))
  {
    var m := Scan(trace[..i], doc);
    LawfulPrefix(trace, doc, i);
    assert if m.open.Some? && m.open.value.from.Some? then trace[i].doc == m.open.value.before && m.rolled
           else m.grant == Free || (m.grant == OnTrial && m.open.Some?);
    hide Scan, Lawful, CoveredBy, ByRollback;
    if Reverting(trace, i) {
      var b, j :| During(trace, b, i) && b < j < i && trace[j].Journalled?;
      SourceStays(trace, doc, b, j, i);
      StaysOpen(trace, doc, b, i);
      RolledFollows(trace, doc, i);
    } else if m.open.Some? && m.open.value.from.Some? {
      var b := OpenBegan(trace, doc, i);
    } else {
      var a := GrantFollows(trace, doc, i);
      if trace[a].needed { SaveIsCovered(trace, doc, a, i); }
    }
  }

  lemma LawfulEnds(trace: seq<Entry>, doc: Document)
    requires Scan(trace, doc).lawful
    ensures EndsByRollback(trace)
  {
    forall i | 0 <= i < |trace| && trace[i].RolledBack?
      ensures ByRollback(trace, i)
    {
      LawfulPrefix(trace, doc, i);
      RolledFollows(trace, doc, i);
    }
  }

  lemma LawfulAlternates(trace: seq<Entry>, doc: Document)
    requires Scan(trace, doc).lawful
    ensures Alternates(trace)
  {
    forall i, j | 0 <= i < j < |trace| && Ends(trace[i]) && Ends(trace[j])
      ensures exists k :: i < k < j && trace[k].Begun?
    {
      if forall k :: i < k < j ==> !trace[k].Begun? {
        StaysClosed(trace, doc, i, j);
        LawfulPrefix(trace, doc, j);
      }
    }
    forall i, j | 0 <= i < j < |trace| && trace[i].Begun? && trace[j].Begun?
      ensures exists k :: i < k < j && Ends(trace[k])
    {
      if forall k :: i < k < j ==> !Ends(trace[k]) {
        StaysOpen(trace, doc, i, j);
        LawfulPrefix(trace, doc, j);
      }
    }
  }

  lemma LawfulConfirms(trace: seq<Entry>, doc: Document)
    requires Scan(trace, doc).lawful
    ensures ConfirmsInTime(trace)
  {
    forall b, i | During(trace, b, i) && trace[i].Confirmed?
      ensures trace[i].at < trace[b].deadline && forall k :: b < k < i ==> !trace[k].Journalled?
    {
      StaysOpen(trace, doc, b, i);
      LawfulPrefix(trace, doc, i);
      if j :| b < j < i && trace[j].Journalled? {
        SourceStays(trace, doc, b, j, i);
      }
    }
  }

  lemma LawfulRollbacks(trace: seq<Entry>, doc: Document)
    requires Scan(trace, doc).lawful
    ensures RollsBackToTheStart(trace, doc)
  {
    forall b, i | During(trace, b, i) && trace[i].RollbackCalled?
      ensures trace[i].before == trace[b].before == Scan(trace[..b], doc).stored
      ensures trace[i].runtime == trace[b].runtime
      ensures exists j :: b < j < i && trace[j].Journalled? && trace[i].from == trace[j].from == Scan(trace[..j], doc).stored
    {
      StaysOpen(trace, doc, b, i);
      LawfulPrefix(trace, doc, b);
      LawfulPrefix(trace, doc, i);
      if forall k :: b < k < i ==> !trace[k].Journalled? {
        NoSource(trace, doc, b, i);
      } else {
        var j :| b < j < i && trace[j].Journalled?;
        SourceStays(trace, doc, b, j, i);
      }
    }
  }

  /** Some run from a fresh start leads here. */
  ghost predicate Reached(w: World, doc: Document) {
    exists start, events :: Fresh(start, doc) && w == Run(start, events)
  }

  lemma ReachedStart(w: World, doc: Document)
    requires Fresh(w, doc)
    ensures Reached(w, doc)
  {
    assert Run(w, []) == w;
  }

  lemma ReachedStep(w: World, doc: Document, e: Event)
    requires Reached(w, doc)
    ensures Reached(Step(w, e), doc)
  {
    hide Step, Fresh;
    var start, events :| Fresh(start, doc) && w == Run(start, events);
    assert (events + [e])[..|events|] == events;
    assert Run(start, events + [e]) == Step(w, e);
  }

  lemma ReachedInv(w: World, doc: Document)
    requires Reached(w, doc)
    ensures Inv(w, doc) && Scan(w.trace, doc).lawful
  {
    var start, events :| Fresh(start, doc) && w == Run(start, events);
    EveryRunIsLawful(start, doc, events);
  }

  /** The promises hold of every run, whatever fails and wherever the process dies. */
  lemma TrialPromises(w: World, doc: Document)
    requires Reached(w, doc)
    ensures Alternates(w.trace) && ConfirmsInTime(w.trace) && RollsBackToTheStart(w.trace, doc)
    ensures AdmitsInTime(w.trace) && StoresWhatWasAdmitted(w.trace, doc) && EndsByRollback(w.trace)
  {
    ReachedInv(w, doc);
    LawfulAdmits(w.trace, doc);
    LawfulStores(w.trace, doc);
    LawfulEnds(w.trace, doc);
    LawfulAlternates(w.trace, doc);
    LawfulConfirms(w.trace, doc);
    LawfulRollbacks(w.trace, doc);
  }

  lemma RolledBackStores(trace: seq<Entry>, doc: Document, i: nat)
    requires Scan(trace, doc).lawful && i < |trace| && trace[i].RolledBack?
    ensures Scan(trace[..i], doc).open.Some? && Scan(trace[..i], doc).stored == Scan(trace[..i], doc).open.value.before
  {
    LawfulPrefix(trace, doc, i);
    hide Scan;
  }

  lemma IdleIsClosed(w: World, doc: Document)
    requires Inv(w, doc) && w.up && w.trial.None?
    ensures Scan(w.trace, doc).open.None? && Loaded(w.disk) == Success(Scan(w.trace, doc).stored)
  {}

  /** If the router is up and idle, its latest trial is over; and unless that trial was confirmed, it was
      rolled back with the captured document stored, which is still stored if nothing was saved since. */
  lemma IdleMeansSettled(w: World, doc: Document, b: nat)
    requires Reached(w, doc) && w.up && w.trial.None?
    requires b < |w.trace| && w.trace[b].Begun?
    requires forall k :: b < k < |w.trace| ==> !w.trace[k].Begun? && !w.trace[k].Confirmed?
    ensures exists i :: && b < i < |w.trace| && w.trace[i].RolledBack?
                        && Scan(w.trace[..i], doc).stored == w.trace[b].before
                        && ((forall k :: i < k < |w.trace| ==> !w.trace[k].Saving?) ==>
                              Loaded(w.disk) == Success(w.trace[b].before))
  {
    hide Reached, Loaded, Inv, Lawful, Scan, Moved;
    var trace := w.trace;
    ReachedInv(w, doc);
    IdleIsClosed(w, doc);
    assert trace[..|trace|] == trace;
    hide Alternates;
    if forall k :: b < k < |trace| ==> !Ends(trace[k]) {
      StaysOpen(trace, doc, b, |trace|);
    } else {
      var i :| b < i < |trace| && Ends(trace[i]);
      StaysClosed(trace, doc, i, |trace|);
      if k :| b < k < i && Ends(trace[k]) {
        StaysClosed(trace, doc, k, i + 1);
      }
      StaysOpen(trace, doc, b, i);
      if trace[i].RolledBack? { RolledBackStores(trace, doc, i); }
      if forall k :: i < k < |trace| ==> !trace[k].Saving? {
        StoredStays(trace, doc, i, |trace|);
      }
    }
  }

  lemma SavingStores(m: Monitor, e: Entry)
    ensures !e.Saving? ==> After(m, e).stored == m.stored
  {}

  lemma {:induction false} StoredStays(trace: seq<Entry>, doc: Document, i: nat, n: nat)
    requires i <= n <= |trace|
    requires forall k :: i <= k < n ==> !trace[k].Saving?
    ensures Scan(trace[..n], doc).stored == Scan(trace[..i], doc).stored
  {
    if i < n {
      StoredStays(trace, doc, i, n - 1);
      assert trace[..n][..n - 1] == trace[..n - 1];
      SavingStores(Scan(trace[..n - 1], doc), trace[n - 1]);
      hide Lawful, After;
    }
  }

  /** Nothing keeps a revert from its end. The store is read only if no earlier attempt has journalled what was
      there. */
  predicate Unhindered(t: Record, io: RevertIo) {
    (t.from != [] || io.load) && io.persist.Done? && io.roll.RolledAll? && io.remove.Done?
  }

  /** The machine is idle, and has the captured document of the trial that was open at `w` stored. */
  ghost predicate Restored(w: World, now: World, doc: Document) {
    && now.up && now.trial.None? && now.journal.Absent?
    && Scan(w.trace, doc).open.Some?
    && Loaded(now.disk) == Success(Scan(w.trace, doc).open.value.before)
  }

  /** The trial is still in memory, as itself, so that its deadline will fire. */
  ghost predicate StillOnTrial(t: Record, now: World) {
    now.up && now.trial.Some? && now.trial.value.id == t.id && now.trial.value.before == t.before
  }

  lemma UnhinderedRestores(w: World, cause: Cause, io: RevertIo, doc: Document)
    requires Inv(w, doc) && w.up && w.trial.Some? && w.trial.value.id != "" && Unhindered(w.trial.value, io)
    ensures Restored(w, Revert(w, cause, io).w, doc)
  {
    hide Encoded, Decoded, Settled;
    RevertReads(w, io, doc);
    RoundTrip(w.disk.modules, Scan(w.trace, doc).open.value.before);
  }

  lemma HinderedStays(w: World, cause: Cause, io: RevertIo)
    requires w.up && w.trial.Some? && !Unhindered(w.trial.value, io)
    ensures !Revert(w, cause, io).w.up || StillOnTrial(w.trial.value, Revert(w, cause, io).w)
    ensures w.journal.Present? ==> Revert(w, cause, io).w.journal.Present? || !Revert(w, cause, io).w.up
  {
    hide Encoded, Decoded, Loaded;
  }

  /** A revert ends the trial exactly when nothing hinders it, and then the captured document is stored. Otherwise
      the process died or the trial is still there. */
  lemma RevertEnds(w: World, cause: Cause, io: RevertIo, doc: Document)
    requires Inv(w, doc) && w.up && w.trial.Some? && w.trial.value.id != ""
    ensures var now := Revert(w, cause, io).w;
            && (now.up && now.trial.None? <==> Unhindered(w.trial.value, io))
            && (now.up && now.trial.None? ==> Restored(w, now, doc))
            && (now.up && now.trial.Some? ==> StillOnTrial(w.trial.value, now))
  {
    hide Revert, Inv;
    if Unhindered(w.trial.value, io) { UnhinderedRestores(w, cause, io, doc); } else { HinderedStays(w, cause, io); }
  }

  /** Wherever a run was cut short during a trial: the next start ends the trial exactly when the journal can be read
      and nothing hinders the revert, and then the configuration captured when the trial began is restored. A start
      that is hindered and survives still has the trial, in memory and in the journal; one that cannot read the
      journal admits no guarded write. */
  lemma RestartRestores(w: World, doc: Document, readable: bool, io: RevertIo)
    requires Reached(w, doc) && !w.up && w.journal.Present?
    ensures var now := Step(w, Restart(readable, io));
            && (now.up && now.trial.None? <==> readable && Unhindered(w.journal.record, io))
            && (now.up && now.trial.None? ==> Restored(w, now, doc))
            && (now.up && now.trial.Some? && readable ==> StillOnTrial(w.journal.record, now) && now.journal.Present?)
            && (!readable ==> now.up && forall header, at :: !Guard(now, header, at))
  {
    hide Encoded, Decoded, Settled;
    ReachedInv(w, doc);
    RoundTrip(w.disk.modules, Scan(w.trace, doc).open.value.before);
    ScanAppend(w.trace, Booted(true), doc);
    var started := Log(w.(up := true), Booted(true)).(trial := Some(w.journal.record));
    assert Inv(started, doc);
    hide Scan, Inv, Revert;
    RevertEnds(started, Rebooted, io, doc);
    if !Unhindered(w.journal.record, io) { HinderedStays(started, Rebooted, io); }
  }

  /** A run in which the start after a crash does not restore: the store could not be read just then, so the changed
      document is still stored and the trial is still open. */
  lemma StartMayNotRestore()
    ensures exists w, doc, io ::
              && Reached(w, doc) && !w.up && w.journal.Present?
              && var now := Step(w, Restart(true, io));
                 && now.up && now.trial.Some? && Loaded(now.disk).Success?
                 && Scan(w.trace, doc).open.Some?
                 && Loaded(now.disk) != Success(Scan(w.trace, doc).open.value.before)
  {
    var io := RevertIo(false, Done, RolledAll, Done, 0, Done);
    var w, doc := CutShort(io);
    assert Load(w, true, io).disk == w.disk && Load(w, true, io).up;
    hide Reached, Scan, Load;
    RestartRestores(w, doc, true, io);
  }

  const DHCP := ["dhcp"]

  /** The machine after a first start. */
  const STARTED := World(true, None, Absent, Disk(DHCP, None), false, [Booted(true)])

  /** A change on trial: admitted, begun and saved. */
  lemma ChangeOnTrial(edit: Event) returns (w: World)
    requires edit == Edit("", 0, true, 0, BeginIo(true, "trial", 0, 0, Some(""), Done), Some(Change("dhcp", Json.Null, true, Done)))
    ensures w == Step(STARTED, edit) && w.up && w.journal.Present? && w.journal.record.from == []
    ensures w.trace == [Booted(true), Admitted("", 0, true), Begun("trial", TWO_MINUTES, EMPTY, ""), Saving(Set(EMPTY, "dhcp", Json.Null))]
    ensures Loaded(w.disk) == Success(Set(EMPTY, "dhcp", Json.Null))
  {
    hide Encoded, Decoded, Settled;
    var t := Record("trial", TWO_MINUTES, Pending, Encoded(DHCP, EMPTY), [], "");
    var changed := Set(EMPTY, "dhcp", Json.Null);
    var admitted := Log(STARTED, Admitted("", 0, true));
    var begun := Log(admitted.(journal := Present(t)), Begun("trial", TWO_MINUTES, EMPTY, "")).(trial := Some(t));
    assert Begin(admitted, edit.begin) == Ran(begun, true);
    w := Save(begun, changed, Done).w;
    EmptySettled(DHCP);
    SetSettled(DHCP, EMPTY, "dhcp", Json.Null);
    RoundTrip(DHCP, changed);
  }

  /** A first start, a change on trial, and a crash. */
  lemma CutShort(io: RevertIo) returns (w: World, doc: Document)
    requires !io.load
    ensures Reached(w, doc) && !w.up && w.journal.Present? && w.journal.record.from == []
    ensures Scan(w.trace, doc).open.Some? && Loaded(w.disk).Success?
    ensures Loaded(w.disk) != Success(Scan(w.trace, doc).open.value.before)
  {
    hide Reached, Step, Loaded, Fresh, Scan, Inv;
    doc := EMPTY;
    var edit := Edit("", 0, true, 0, BeginIo(true, "trial", 0, 0, Some(""), Done), Some(Change("dhcp", Json.Null, true, Done)));
    FirstStart(io);
    ReachedStart(UNUSED, doc);
    ReachedStep(UNUSED, doc, Restart(true, io));
    var w2 := ChangeOnTrial(edit);
    ReachedStep(STARTED, doc, edit);
    Dies(w2);
    ReachedStep(w2, doc, Crash);
    w := Crashed(w2);
    ReachedInv(w, doc);
    assert w.trace[..4] == w.trace && w.trace[2].Begun?;
    StaysOpen(w.trace, doc, 2, 4);
    assert "dhcp" in Set(EMPTY, "dhcp", Json.Null).keys;
  }

  /** A machine that has never been started. */
  const UNUSED := World(false, None, Absent, Disk(DHCP, None), false, [])

  lemma FirstStart(io: RevertIo)
    ensures Fresh(UNUSED, EMPTY) && Step(UNUSED, Restart(true, io)) == STARTED
  {}

  lemma Dies(w: World)
    requires w.up
    ensures Step(w, Crash) == Crashed(w)
  {}

  /** A trial nobody confirms: one tick after its deadline ends it exactly when nothing hinders the revert, and then
      the captured document is stored; otherwise it waits for the next tick. */
  lemma TimerRestores(w: World, doc: Document, at: int, io: RevertIo)
    requires Reached(w, doc)
    requires w.up && w.trial.Some? && w.trial.value.id != "" && at >= w.trial.value.deadline
    ensures var now := Step(Step(w, Tick(at)), TimerFires(at, io));
            && (now.up && now.trial.None? <==> Unhindered(w.trial.value, io))
            && (now.up && now.trial.None? ==> Restored(w, now, doc))
            && (now.up && now.trial.Some? ==> StillOnTrial(w.trial.value, now))
  {
    hide Encoded, Decoded, Settled, Revert, Scan;
    ReachedInv(w, doc);
    RevertEnds(w.(queued := false), Timer(at), io, doc);
  }
}
