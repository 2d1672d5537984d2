/** The background watch that starts a backend which should be running and is not
    (internal/daemon/supervise.go). What each read, lock wait and start came to is an argument. */
module Supervise {

  const GIVE_UP_AFTER := 3

  /** An answer to "should this backend be started", or no answer. */
  datatype Read = Unknown | Says(pending: bool)

  /** One look at one backend: the poll, whether the lock was got, the second read under it, and the start. */
  datatype Visit = Visit(name: string, poll: Read, locked: bool, recheck: Read, startWorks: bool)

  datatype Entry =
    | Polled(name: string, read: Read)
    | Locked(name: string)
    | Rechecked(name: string, read: Read)
    | Started(name: string, works: bool)
    | Unlocked(name: string)

  // ----- what a run may look like -----

  predicate SeenHealthy(e: Entry, name: string) {
    e == Polled(name, Says(false)) || e == Rechecked(name, Says(false))
  }

  function Count(n: nat, e: Entry, name: string): nat {
    if SeenHealthy(e, name) then 0 else if e.Started? && e.name == name then n + 1 else n
  }

  ghost function After(n: nat, es: seq<Entry>, name: string): nat
    decreases |es|
  {
    if es == [] then n else After(Count(n, es[0], name), es[1..], name)
  }

  /** The starts of a backend since it was last seen healthy. */
  ghost function Streak(trace: seq<Entry>, name: string): nat { After(0, trace, name) }

  ghost function Starts(es: seq<Entry>, name: string): nat {
    if es == [] then 0 else (if es[0].Started? && es[0].name == name then 1 else 0) + Starts(es[1..], name)
  }

  /** Each start directly follows a positive recheck that directly follows taking the lock. */
  ghost predicate StartsUnderLock(trace: seq<Entry>) {
    forall i :: 0 <= i < |trace| && trace[i].Started? ==>
      i >= 2 && trace[i - 1] == Rechecked(trace[i].name, Says(true)) && trace[i - 2] == Locked(trace[i].name)
  }

  // ----- the watch as a state machine -----

  datatype State = State(attempts: map<string, nat>, trace: seq<Entry>)
  {
    function Attempts(name: string): nat { if name in attempts then attempts[name] else 0 }
  }

  predicate Tries(s: State, v: Visit) { v.poll == Says(true) && s.Attempts(v.name) < GIVE_UP_AFTER && v.locked }

  predicate Attempted(s: State, v: Visit) { Tries(s, v) && v.recheck == Says(true) }

  function Entries(s: State, v: Visit): seq<Entry> {
    [Polled(v.name, v.poll)] + if Tries(s, v) then Held(v) else []
  }

  /** What happens while the lock is held. */
  function Held(v: Visit): seq<Entry> {
    [Locked(v.name), Rechecked(v.name, v.recheck)] +
    (if v.recheck == Says(true) then [Started(v.name, v.startWorks)] else []) + [Unlocked(v.name)]
  }

  function Look(s: State, v: Visit): State {
    State(
      if Attempted(s, v) then s.attempts[v.name := s.Attempts(v.name) + 1]
      else if v.poll == Says(false) || (Tries(s, v) && v.recheck == Says(false)) then s.attempts - {v.name}
      else s.attempts,
      s.trace + Entries(s, v))
  }

  function Run(visits: seq<Visit>): State {
    if visits == [] then State(map[], []) else Look(Run(visits[..|visits| - 1]), visits[|visits| - 1])
  }

  lemma RunStep(visits: seq<Visit>, v: Visit)
    ensures Run(visits + [v]) == Look(Run(visits), v)
  {
    assert (visits + [v])[..|visits|] == visits;
  }

  // ----- the code -----

  class Watch {
    var attempts: map<string, nat>
    ghost var trace: seq<Entry>

    constructor ()
      ensures Now() == State(map[], [])
    {
      attempts, trace := map[], [];
    }

    ghost function Now(): State
      reads this
    {
      State(attempts, trace)
    }

    /** Rechecks after taking the lock, and starts under it. */
    method RecoverBackend(v: Visit) returns (attempted: bool, failed: bool)
      modifies this`trace
      ensures attempted <==> v.locked && v.recheck == Says(true)
      ensures !attempted ==> (failed <==> !v.locked || v.recheck.Unknown?)
      ensures trace == old(trace) + if v.locked then Held(v) else []
    {
      attempted := false;
      if !v.locked { return false, true; }
      trace := trace + [Locked(v.name), Rechecked(v.name, v.recheck)];
      if v.recheck.Unknown? {
        failed := true;
      } else if !v.recheck.pending {
        failed := false;
      } else {
        attempted := true;
        trace := trace + [Started(v.name, v.startWorks)];
        failed := !v.startWorks;
      }
      trace := trace + [Unlocked(v.name)];
    }

    method LookAt(v: Visit)
      modifies this
      ensures Now() == Look(old(Now()), v)
    {
      trace := trace + [Polled(v.name, v.poll)];
      if v.poll.Unknown? { return; }
      if !v.poll.pending {
        attempts := attempts - {v.name};
        return;
      }
      if v.name in attempts && attempts[v.name] >= GIVE_UP_AFTER { return; }
      var attempted, failed := RecoverBackend(v);
      if !attempted {
        if !failed { attempts := attempts - {v.name}; }
        return;
      }
      attempts := attempts[v.name := (if v.name in attempts then attempts[v.name] else 0) + 1];
    }

    /** One tick: every backend in turn. */
    method Tick(ghost past: seq<Visit>, visits: seq<Visit>)
      requires Now() == Run(past)
      modifies this
      ensures Now() == Run(past + visits)
    {
      assert past + visits[..0] == past;
      for i := 0 to |visits|
        invariant Now() == Run(past + visits[..i])
      {
        hide Look, Run;
        LookAt(visits[i]);
        RunStep(past + visits[..i], visits[i]);
        assert past + visits[..i + 1] == past + visits[..i] + [visits[i]];
      }
      assert visits[..|visits|] == visits;
    }
  }

  // ----- every run -----

  lemma {:induction false} AfterConcat(n: nat, a: seq<Entry>, b: seq<Entry>, name: string)
    ensures After(n, a + b, name) == After(After(n, a, name), b, name)
    decreases |a|
  {
    if a == [] {
      assert a + b == b;
    } else {
      assert (a + b)[1..] == a[1..] + b;
      AfterConcat(Count(n, a[0], name), a[1..], b, name);
    }
  }

  lemma AfterCons(n: nat, e: Entry, es: seq<Entry>, name: string)
    ensures After(n, [e] + es, name) == After(Count(n, e, name), es, name)
    ensures Starts([e] + es, name) == (if e.Started? && e.name == name then 1 else 0) + Starts(es, name)
  {
    assert ([e] + es)[1..] == es;
  }

  /** Part of a stretch adds at most the starts of the whole stretch, and exactly its own starts while the backend is
      not seen healthy. */
  lemma {:induction false} AfterBounds(n: nat, es: seq<Entry>, name: string, k: nat)
    requires k <= |es|
    ensures After(n, es[..k], name) <= n + Starts(es, name)
    ensures (forall e :: e in es ==> !SeenHealthy(e, name)) ==> After(n, es, name) == n + Starts(es, name)
    decreases |es|
  {
    if es != [] {
      AfterBounds(Count(n, es[0], name), es[1..], name, if k == 0 then 0 else k - 1);
      if k > 0 { assert es[..k][1..] == es[1..][..k - 1]; }
    }
  }

  lemma HeldStreak(n: nat, v: Visit, name: string)
    ensures After(n, Held(v), name) ==
            if v.name != name || v.recheck.Unknown? then n else if v.recheck.pending then n + 1 else 0
    ensures Starts(Held(v), name) == if v.name == name && v.recheck == Says(true) then 1 else 0
  {
    var last := [Unlocked(v.name)];
    var m := Count(n, Rechecked(v.name, v.recheck), name);
    AfterCons(m, Unlocked(v.name), [], name);
    AfterCons(m + 1, Unlocked(v.name), [], name);
    assert last == [Unlocked(v.name)] + [];
    AfterCons(m, Started(v.name, v.startWorks), last, name);
    var rest := (if v.recheck == Says(true) then [Started(v.name, v.startWorks)] else []) + last;
    AfterCons(n, Rechecked(v.name, v.recheck), rest, name);
    AfterCons(n, Locked(v.name), [Rechecked(v.name, v.recheck)] + rest, name);
    assert Held(v) == [Locked(v.name)] + ([Rechecked(v.name, v.recheck)] + rest);
  }

  lemma EntriesStreak(s: State, v: Visit, name: string)
    requires s.Attempts(name) == Streak(s.trace, name)
    ensures Look(s, v).Attempts(name) == After(s.Attempts(name), Entries(s, v), name)
    ensures Starts(Entries(s, v), name) == if v.name == name && Attempted(s, v) then 1 else 0
  {
    var n := s.Attempts(name);
    HeldStreak(Count(n, Polled(v.name, v.poll), name), v, name);
    AfterCons(n, Polled(v.name, v.poll), if Tries(s, v) then Held(v) else [], name);
  }

  /** The count of attempts is the streak of starts, which stays at most three. */
  ghost predicate Counted(s: State, name: string) {
    s.Attempts(name) == Streak(s.trace, name) <= GIVE_UP_AFTER
  }

  lemma LookCounts(s: State, v: Visit, name: string)
    requires Counted(s, name)
    ensures Counted(Look(s, v), name)
    ensures forall n :: |s.trace| <= n <= |Look(s, v).trace| ==> Streak(Look(s, v).trace[..n], name) <= GIVE_UP_AFTER
  {
    var es := Entries(s, v);
    EntriesStreak(s, v, name);
    AfterConcat(0, s.trace, es, name);
    forall n | |s.trace| <= n <= |s.trace + es|
      ensures Streak((s.trace + es)[..n], name) <= GIVE_UP_AFTER
    {
      var k := n - |s.trace|;
      assert (s.trace + es)[..n] == s.trace + es[..k];
      AfterConcat(0, s.trace, es[..k], name);
      AfterBounds(s.Attempts(name), es, name, k);
    }
    AfterBounds(s.Attempts(name), es, name, |es|);
    assert es[..|es|] == es;
  }

  lemma LookUnderLock(s: State, v: Visit)
    requires StartsUnderLock(s.trace)
    ensures StartsUnderLock(Look(s, v).trace)
  {
    var es := Entries(s, v);
    var t := s.trace + es;
    forall i | 0 <= i < |t| && t[i].Started?
      ensures i >= 2 && t[i - 1] == Rechecked(t[i].name, Says(true)) && t[i - 2] == Locked(t[i].name)
    {
      if i < |s.trace| {
        assert s.trace[i].Started?;
      } else {
        assert es[i - |s.trace|].Started?;
      }
    }
  }

  /** At every moment of every run, a backend has been started at most three times since it was last seen healthy;
      the count that enforces it counts starts and nothing else; and every start shares a lock hold with a
      positive recheck. */
  lemma {:induction false} AtMostThreeStarts(visits: seq<Visit>, name: string)
    ensures StartsUnderLock(Run(visits).trace)
    ensures Run(visits).Attempts(name) == Streak(Run(visits).trace, name)
    ensures forall n :: 0 <= n <= |Run(visits).trace| ==> Streak(Run(visits).trace[..n], name) <= 3
  {
    if visits != [] {
      var s, v := Run(visits[..|visits| - 1]), visits[|visits| - 1];
      AtMostThreeStarts(visits[..|visits| - 1], name);
      assert s.trace[..|s.trace|] == s.trace;
      LookCounts(s, v, name);
      LookUnderLock(s, v);
      forall n | 0 <= n <= |Look(s, v).trace|
        ensures Streak(Look(s, v).trace[..n], name) <= GIVE_UP_AFTER
      {
        if n < |s.trace| { assert Look(s, v).trace[..n] == s.trace[..n]; }
      }
    }
  }

  /** Between two moments at which a backend is not seen healthy in between, it is started at most three times. */
  lemma StretchStarts(visits: seq<Visit>, name: string, i: nat, j: nat)
    requires i <= j <= |Run(visits).trace|
    requires forall k :: i <= k < j ==> !SeenHealthy(Run(visits).trace[k], name)
    ensures Starts(Run(visits).trace[i..j], name) <= 3
  {
    var t := Run(visits).trace;
    AtMostThreeStarts(visits, name);
    assert t[..j] == t[..i] + t[i..j];
    AfterConcat(0, t[..i], t[i..j], name);
    AfterBounds(Streak(t[..i], name), t[i..j], name, 0);
  }

  /** And it is started when it should be: whenever the poll and the recheck under the lock say so and it has been
      started fewer than three times since it was last seen healthy; and then only. */
  lemma StartsWhenNeeded(visits: seq<Visit>, v: Visit)
    ensures var past, now := Run(visits).trace, Run(visits + [v]).trace;
            && past <= now
            && (Started(v.name, v.startWorks) in now[|past|..] <==>
                  v.poll == Says(true) && Streak(past, v.name) < 3 && v.locked && v.recheck == Says(true))
            && (Locked(v.name) in now[|past|..] <==> v.poll == Says(true) && Streak(past, v.name) < 3 && v.locked)
            && (forall e <- now[|past|..] :: e.name == v.name)
  {
    AtMostThreeStarts(visits, v.name);
    assert (visits + [v])[..|visits|] == visits;
    var s := Run(visits);
    assert Look(s, v).trace[|s.trace|..] == Entries(s, v);
    EntriesHold(s, v);
    hide Run, Streak, Entries, Look;
  }

  lemma EntriesHold(s: State, v: Visit)
    ensures Started(v.name, v.startWorks) in Entries(s, v) <==> Attempted(s, v)
    ensures Locked(v.name) in Entries(s, v) <==> Tries(s, v)
    ensures forall e <- Entries(s, v) :: e.name == v.name
  {
    var es := Entries(s, v);
    if Tries(s, v) {
      assert es[1] == Locked(v.name);
      if v.recheck == Says(true) { assert es[3] == Started(v.name, v.startWorks); }
    }
  }

  /** A failed read or an abandoned wait costs nothing, however often it happens: after any number of them the
      backend may still be started as many times as before. */
  lemma {:induction false} FailuresCostNothing(visits: seq<Visit>, failures: seq<Visit>, name: string)
    requires forall v :: v in failures ==> v.poll.Unknown? || (v.poll.pending && (!v.locked || v.recheck.Unknown?))
    ensures Run(visits + failures).Attempts(name) == Run(visits).Attempts(name)
  {
    if failures == [] {
      assert visits + failures == visits;
    } else {
      var n := |failures| - 1;
      FailuresCostNothing(visits, failures[..n], name);
      assert (visits + failures)[..|visits| + n] == visits + failures[..n];
      assert failures[n] in failures;
    }
  }
}
