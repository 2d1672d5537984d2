/** Carrying out a plan (internal/dhcp/apply.go): ordered steps on the files and the unit, any of which may
    fail, with nothing undone when one does. */
module Apply {
  import opened Wrappers
  import opened Ordering
  import opened Render
  import opened Strings
  import opened Plan

  datatype UnitState = Inactive | Activating | Active

  /** How an apply ended. `Step(n)` is the number of the step that failed; steps are counted from 0. */
  datatype Ended = Applied | Held | Step(n: nat) | RenderedNothing

  ghost function VisibleFiles(l: Layout, disk: map<string, Data>): map<string, Data> {
    map path | path in disk && l.Visible(path) :: disk[path]
  }

  /** The unit runs exactly if it should, and starts at boot exactly if it should. */
  predicate UnitSettled(enabled: bool, state: UnitState, enabledAtBoot: bool) {
    enabledAtBoot == enabled && (if enabled then state != Inactive else state != Active)
  }

  /** The disk after the work on `touched` has landed on what `was` there. */
  ghost function Patched(was: map<string, Data>, wanted: map<string, Data>, touched: set<string>): map<string, Data> {
    map path | path in was.Keys + wanted.Keys && (if path in touched then path in wanted else path in was) ::
      if path in touched then wanted[path] else was[path]
  }

  ghost function Paths(changes: seq<Change>): set<string> {
    set c | c in changes :: c.path
  }

  lemma PatchedStep(was: map<string, Data>, wanted: map<string, Data>, touched: set<string>, path: string)
    ensures path in wanted ==> Patched(was, wanted, touched + {path}) == Patched(was, wanted, touched)[path := wanted[path]]
    ensures path !in wanted ==> Patched(was, wanted, touched + {path}) == Patched(was, wanted, touched) - {path}
  {}

  lemma PatchedNone(was: map<string, Data>, wanted: map<string, Data>)
    ensures Patched(was, wanted, {}) == was
  {}

  /** With all the work landed, the observer sees exactly the rendered files. */
  lemma PatchedAll(l: Layout, was: map<string, Data>, rendered: seq<File>, changes: seq<Change>)
    requires SoundRendering(l, rendered) && Exact(l, Wanted(rendered), VisibleFiles(l, was), changes)
    ensures VisibleFiles(l, Patched(was, Wanted(rendered), Paths(changes))) == Wanted(rendered)
  {
    hide Layout.Reloadable, Layout.Visible, CanonicalLines;
    WantedHas(rendered);
    var wanted := Wanted(rendered);
    var now := Patched(was, wanted, Paths(changes));
    forall path
      ensures path in VisibleFiles(l, now) <==> path in wanted
      ensures path in VisibleFiles(l, now) && path in wanted ==> now[path] == wanted[path]
    {
      var c := ChangeAt(l, wanted, VisibleFiles(l, was), path);
      if c.Some? {
        assert c.value in changes && c.value.path == path;
      } else {
        assert path !in Paths(changes);
      }
    }
  }

  lemma PathsStep(changes: seq<Change>, i: nat)
    requires i < |changes|
    ensures Paths(changes[..i + 1]) == Paths(changes[..i]) + {changes[i].path}
  {
    assert changes[..i + 1] == changes[..i] + [changes[i]];
  }

  lemma PathsApart(l: Layout, rendered: seq<File>)
    requires SoundRendering(l, rendered)
    ensures DistinctPaths(rendered) && Paths([]) == {}
  {}

  function FindFile(rendered: seq<File>, path: string): Option<File> {
    if rendered == [] then None
    else if rendered[0].path == path then Some(rendered[0])
    else FindFile(rendered[1..], path)
  }

  lemma FindFileFinds(rendered: seq<File>, path: string)
    requires DistinctPaths(rendered)
    ensures path in Wanted(rendered) ==>
              FindFile(rendered, path).Some? && FindFile(rendered, path).value.data == Wanted(rendered)[path]
  {
    WantedHas(rendered);
    if path in Wanted(rendered) {
      var f :| f in rendered && f.path == path;
      FindFileIs(rendered, f);
    }
  }

  lemma {:induction false} FindFileIs(rendered: seq<File>, f: File)
    requires DistinctPaths(rendered) && f in rendered
    ensures FindFile(rendered, f.path) == Some(f)
  {
    if rendered[0] != f {
      var i :| 0 < i < |rendered| && rendered[i] == f;
      assert PathOf(rendered[0]) != PathOf(rendered[i]);
      assert rendered[1..][i - 1] == f;
      assert forall k :: 0 <= k < |rendered| - 1 ==> rendered[1..][k] == rendered[k + 1];
      FindFileIs(rendered[1..], f);
    }
  }

  /** The box as an apply meets it. `loaded` is what the daemon has read, while it runs or comes up. */
  class Box {
    const layout: Layout
    /** A service manager that answers. */
    const manager: bool
    var disk: map<string, Data>
    var state: UnitState
    var enabledAtBoot: bool
    var installed: bool
    var loaded: map<string, Data>
    /** What the stored configuration renders to, and whether it wants the service. */
    var intent: (bool, seq<File>)

    constructor (layout: Layout, manager: bool, disk: map<string, Data>, state: UnitState, enabledAtBoot: bool,
                 installed: bool, loaded: map<string, Data>, intent: (bool, seq<File>))
      ensures this.layout == layout && this.manager == manager && this.disk == disk && this.state == state
      ensures this.enabledAtBoot == enabledAtBoot && this.installed == installed && this.loaded == loaded && this.intent == intent
    {
      this.layout, this.manager, this.disk, this.state := layout, manager, disk, state;
      this.enabledAtBoot, this.installed, this.loaded, this.intent := enabledAtBoot, installed, loaded, intent;
    }

    ghost function Observation(): Observed
      reads this
    {
      Observed(VisibleFiles(layout, disk), manager && state == Active, manager && state == Activating,
               manager && enabledAtBoot, manager)
    }

    /** Reads everything fresh; files with a leading dot are passed over. */
    method Observe() returns (obs: Observed)
      ensures obs == Observation()
    {
      var files: map<string, Data> := map[];
      var todo := disk.Keys;
      while todo != {}
        invariant todo <= disk.Keys
        invariant files == map path | path in disk.Keys - todo && layout.Visible(path) :: disk[path]
        decreases todo
      {
        var path :| path in todo;
        todo := todo - {path};
        if layout.Visible(path) {
          files := files[path := disk[path]];
        }
      }
      obs := Observed(files, manager && state == Active, manager && state == Activating, manager && enabledAtBoot, manager);
    }

    /** The file steps, in the order of the plan. Whatever landed before a step failed stays. */
    method WriteChanges(rendered: seq<File>, changes: seq<Change>, faults: set<nat>, first: nat) returns (next: nat, ended: Ended)
      requires SoundRendering(layout, rendered)
      requires Exact(layout, Wanted(rendered), VisibleFiles(layout, disk), changes)
      modifies this`disk
      ensures ended == Applied || (ended.Step? && ended.n >= first)
      ensures next >= first
      ensures ended == Applied <==> forall k :: first <= k < first + |changes| ==> k !in faults
      ensures ended == Applied ==> next == first + |changes| && disk == Patched(old(disk), Wanted(rendered), Paths(changes))
      ensures ended.Step? ==>
                && ended.n in faults && ended.n < first + |changes| && (forall k :: first <= k < ended.n ==> k !in faults)
                && disk == Patched(old(disk), Wanted(rendered), Paths(changes[..ended.n - first]))
    {
      hide *;
      ghost var wanted := Wanted(rendered);
      ghost var was := disk;
      PathsApart(layout, rendered);
      PatchedNone(was, wanted);
      assert changes[..0] == [];
      next := first;
      for i := 0 to |changes|
        invariant next == first + i && forall k :: first <= k < next ==> k !in faults
        invariant disk == Patched(was, wanted, Paths(changes[..i]))
      {
        var change := changes[i];
        PathsStep(changes, i);
        assert change in changes;
        ChangeSound(layout, rendered, VisibleFiles(layout, was), changes, change);
        PatchedStep(was, wanted, Paths(changes[..i]), change.path);
        if change.kind == Delete {
          if next in faults { return next, Step(next); }
          disk := disk - {change.path};
        } else {
          FindFileFinds(rendered, change.path);
          var file := FindFile(rendered, change.path);
          if file.None? { return next, RenderedNothing; }
          if next in faults { return next, Step(next); }
          disk := disk[change.path := file.value.data];
        }
        next := next + 1;
      }
      assert changes[..|changes|] == changes;
      ended := Applied;
    }

    /** The unit steps, after the files: installed at all, the port free before a start, the boot state, then the
        action, and a last look that the daemon stayed up. `broken` is what a failed action leaves behind. */
    method DriveUnit(plan: Plan, enabled: bool, faults: set<nat>, first: nat, portFree: bool,
                     broken: (UnitState, map<string, Data>)) returns (ended: Ended)
      modifies this`state, this`enabledAtBoot, this`loaded
      ensures ended == Applied || (ended.Step? && ended.n >= first)
      ensures ended == Applied ==>
                && (plan.enable.Some? ==> manager && enabledAtBoot == plan.enable.value)
                && (plan.enable.None? ==> enabledAtBoot == old(enabledAtBoot))
                && (plan.action != ActionNone ==> manager)
                && state == (match plan.action case ActionNone | Reload => old(state) case Stop => Inactive case _ => Active)
                && loaded == (match plan.action
                              case Start => if old(state) == Active then old(loaded) else VisibleFiles(layout, disk)
                              case Restart => VisibleFiles(layout, disk)
                              case Reload => Reread(layout, old(loaded), VisibleFiles(layout, disk))
                              case _ => old(loaded))
      ensures ended == Applied && enabled && plan.action == Reload ==> state == Active
      ensures (plan.action != ActionNone || plan.enable.Some?) && (!manager || !installed) ==> ended != Applied
      ensures plan.action == Start && !portFree ==> ended != Applied
      ensures (plan.action != ActionNone || plan.enable.Some?) && manager && !installed ==> UnitUnmoved()
      ensures plan.action == Start && !portFree ==> UnitUnmoved()
      ensures (forall k <- faults :: k < first) ==>
                (ended == Applied <==>
                 || (plan.action == ActionNone && plan.enable.None?)
                 || (manager && installed && (plan.action == Start ==> portFree) &&
                     (enabled && plan.action == Reload ==> old(state) == Active)))
      ensures plan.action == ActionNone && plan.enable.None? ==> ended == Applied
    {
      hide VisibleFiles, Reread;
      var step := first;
      if plan.action != ActionNone || plan.enable.Some? {
        if step in faults || (manager && !installed) { return Step(step); }
        step := step + 1;
      }
      if plan.action == Start {
        if step in faults || !portFree { return Step(step); }
        step := step + 1;
      }
      if plan.enable.Some? {
        if step in faults || !manager { return Step(step); }
        enabledAtBoot := plan.enable.value;
        step := step + 1;
      }
      if plan.action == ActionNone { return Applied; }
      if step in faults || !manager {
        state, loaded := broken.0, broken.1;
        return Step(step);
      }
      match plan.action {
        case Start =>
          if state != Active {
            state := Active;
            loaded := ReadAll();
          }
        case Stop =>
          state := Inactive;
        case Reload =>
          loaded := ReadReloadable();
        case Restart =>
          state := Active;
          loaded := ReadAll();
        case ActionNone =>
      }
      step := step + 1;
      if enabled && plan.action != Stop {
        if step in faults {
          state := Inactive;
          return Step(step);
        }
        if state != Active { return Step(step); }
      }
      return Applied;
    }

    /** A starting daemon reads everything it can see. */
    method ReadAll() returns (files: map<string, Data>)
      ensures files == VisibleFiles(layout, disk)
    {
      var obs := Observe();
      files := obs.files;
    }

    /** A signalled daemon reads the two directories again and keeps what it had of the main file. */
    method ReadReloadable() returns (files: map<string, Data>)
      ensures files == Reread(layout, loaded, VisibleFiles(layout, disk))
    {
      var obs := Observe();
      files := Reread(layout, loaded, obs.files);
    }

    /** One apply. `faults` names the steps that fail, `hold` that the operator has to confirm first. */
    method ApplyChecked(rendered: seq<File>, enabled: bool, drops: bool, hold: bool, faults: set<nat>, portFree: bool,
                        broken: (UnitState, map<string, Data>)) returns (plan: Plan, ended: Ended)
      requires SoundRendering(layout, rendered)
      modifies this
      ensures Planned(layout, rendered, enabled, old(Observation()), drops, plan)
      ensures ended != RenderedNothing
      ensures ended == Held || ended == Step(0) ==> Unmoved() && intent == old(intent)
      ensures ended != Held && ended != Step(0) ==> intent == (enabled, rendered)
      ensures installed == old(installed)
      ensures exists k :: 0 <= k <= |plan.changes| && disk == Patched(old(disk), Wanted(rendered), Paths(plan.changes[..k]))
      ensures hold ==> ended == Held
      ensures !hold && 0 in faults ==> ended == Step(0)
      ensures !hold && faults == {} ==>
                (ended == Applied <==>
                 || (plan.action == ActionNone && plan.enable.None?)
                 || (manager && installed && (plan.action == Start ==> portFree)))
      ensures ended == Applied ==> Converged(rendered, enabled)
      ensures ended == Applied && plan.action == ActionNone ==> loaded == old(loaded) && state == old(state)
      ensures !UnitUnmoved() ==> disk == Patched(old(disk), Wanted(rendered), Paths(plan.changes))
      ensures ended == Applied && manager && enabled && old(state) == Active ==>
                && state == Active && loaded == Taken(layout, old(loaded), VisibleFiles(layout, disk), plan.action)
                && (Agree(loaded, VisibleFiles(layout, disk)) <==>
                    match plan.action
                    case ActionNone => Agree(old(loaded), old(VisibleFiles(layout, disk)))
                    case Reload => AgreeOutside(layout, old(loaded), old(VisibleFiles(layout, disk)))
                    case _ => true)
      ensures ended == Applied && manager && enabled && old(state) == Inactive ==>
                state == Active && Agree(loaded, VisibleFiles(layout, disk))
    {
      hide VisibleFiles, Patched, Planned, SoundRendering, Agree, Reread;
      var obs := Observe();
      plan := BuildPlan(layout, rendered, enabled, obs, drops);
      PatchedNone(disk, Wanted(rendered));
      assert Paths(plan.changes[..0]) == {};
      assert plan.changes[..|plan.changes|] == plan.changes;
      if hold { return plan, Held; }
      if 0 in faults { return plan, Step(0); }
      intent := (enabled, rendered);
      PlanFacts(layout, rendered, enabled, obs, drops, plan);
      if plan.NothingToDo() {
        return plan, Applied;
      }
      for step := 1 to 5
        invariant Unmoved() && installed == old(installed) && intent == (enabled, rendered)
      {
        if step in faults { return plan, Step(step); }
      }
      var next;
      next, ended := WriteChanges(rendered, plan.changes, faults, 5);
      if ended != Applied { return; }
      PatchedAll(layout, old(disk), rendered, plan.changes);
      ended := DriveUnit(plan, enabled, faults, next, portFree, broken);
      if ended == Applied {
        Outcome(layout, rendered, enabled, obs, drops, plan, old(loaded));
      }
    }

    twostate predicate UnitUnmoved()
      reads this
    {
      state == old(state) && enabledAtBoot == old(enabledAtBoot) && loaded == old(loaded)
    }

    twostate predicate Unmoved()
      reads this
    {
      disk == old(disk) && UnitUnmoved()
    }

    /** Nothing is left to do: whoever plans the same configuration again finds no work at all. */
    ghost predicate Converged(rendered: seq<File>, enabled: bool)
      reads this
    {
      && VisibleFiles(layout, disk) == Wanted(rendered)
      && (if manager then UnitSettled(enabled, state, enabledAtBoot) else !enabled)
    }
  }

  lemma ChangeSound(l: Layout, rendered: seq<File>, files: map<string, Data>, changes: seq<Change>, c: Change)
    requires Exact(l, Wanted(rendered), files, changes) && c in changes
    ensures c.kind == Delete <==> c.path !in Wanted(rendered)
  {
    hide Layout.Reloadable, CanonicalLines;
  }

  /** What the steps of a plan rest on. */
  lemma PlanFacts(l: Layout, rendered: seq<File>, enabled: bool, obs: Observed, drops: bool, plan: Plan)
    requires Planned(l, rendered, enabled, obs, drops, plan)
    ensures Exact(l, Wanted(rendered), obs.files, plan.changes)
    ensures plan.NothingToDo() ==> obs.files == Wanted(rendered)
    ensures plan.enable == (if obs.known && enabled != obs.enabledAtBoot then Some(enabled) else None)
    ensures enabled && !obs.running && !obs.starting ==> plan.action == Start
    ensures enabled && !obs.running && obs.starting ==> plan.action == ActionNone
    ensures enabled && obs.running ==> plan.action == ActionNone || plan.action == Reload || plan.action == Restart
    ensures !enabled ==> plan.action == if obs.running then Stop else ActionNone
  {
    NoChangesMeansSame(l, rendered, enabled, obs, drops, plan);
  }

  /** What the daemon holds once the action of a plan has been taken on the rendered files. */
  lemma Outcome(l: Layout, rendered: seq<File>, enabled: bool, obs: Observed, drops: bool, plan: Plan, loaded: map<string, Data>)
    requires Planned(l, rendered, enabled, obs, drops, plan)
    ensures Agree(Wanted(rendered), Wanted(rendered))
    ensures enabled && obs.running ==>
              (Agree(Taken(l, loaded, Wanted(rendered), plan.action), Wanted(rendered)) <==>
               match plan.action
               case ActionNone => Agree(loaded, obs.files)
               case Reload => AgreeOutside(l, loaded, obs.files)
               case _ => true)
  {
    hide Planned, Reread;
    if enabled && obs.running { ActionSuffices(l, rendered, obs, drops, plan, loaded); }
  }

  // ----- what a second look finds -----

  /** After a successful apply, planning the same configuration again finds nothing to do. */
  lemma ReplanFindsNothing(box: Box, rendered: seq<File>, enabled: bool, drops: bool, plan: Plan)
    requires box.Converged(rendered, enabled)
    requires Planned(box.layout, rendered, enabled, box.Observation(), drops, plan)
    ensures plan.NothingToDo()
  {
    NoChangesMeansSame(box.layout, rendered, enabled, box.Observation(), drops, plan);
  }

  /** What the observer sees when only part of the work has landed. */
  lemma VisiblePatched(l: Layout, disk: map<string, Data>, rendered: seq<File>, changes: seq<Change>, touched: set<string>)
    requires SoundRendering(l, rendered) && Exact(l, Wanted(rendered), VisibleFiles(l, disk), changes)
    requires touched <= Paths(changes)
    ensures VisibleFiles(l, Patched(disk, Wanted(rendered), touched)) ==
            Patched(VisibleFiles(l, disk), Wanted(rendered), touched)
  {
    hide Layout.Reloadable, Layout.Visible, CanonicalLines;
    WantedHas(rendered);
  }

  /** The daemon reads something else at `path` once the work there has landed. */
  ghost predicate Differs(files: map<string, Data>, rendered: seq<File>, path: string) {
    !SameAt(files, Wanted(rendered), path)
  }

  /** What is still to do after the work on `touched` has landed and nothing else happened. */
  lemma WorkLeft(was: map<string, Data>, rendered: seq<File>, touched: set<string>, path: string)
    ensures Differs(Patched(was, Wanted(rendered), touched), rendered, path) <==> path !in touched && Differs(was, rendered, path)
  {
    hide CanonicalLines;
  }

  lemma LoadedApart(was: map<string, Data>, rendered: seq<File>, touched: set<string>, loaded: map<string, Data>, path: string)
    requires SameAt(loaded, was, path)
    ensures SameAt(loaded, Patched(was, Wanted(rendered), touched), path) <==> !(path in touched && Differs(was, rendered, path))
  {
    hide CanonicalLines;
  }

  /** An apply that stopped somewhere, the daemon running on what was there before it, and the same apply again: the
      second one compares the disk alone. It restarts exactly if something a signal does not reread is still to be
      written, signals if only something a signal rereads is, and else does nothing. The daemon then holds what is
      on disk exactly if that restarted it, or if whatever the first apply had written is read the same as before or
      is reread by the signal. */
  lemma InterruptedApply(l: Layout, rendered: seq<File>, obs: Observed, drops: bool, touched: set<string>, second: Plan,
                         loaded: map<string, Data>)
    requires obs.running && Agree(loaded, obs.files)
    requires Planned(l, rendered, true, obs.(files := Patched(obs.files, Wanted(rendered), touched)), drops, second)
    ensures second.action ==
              if exists path :: path !in touched && !l.Reloadable(path) && Differs(obs.files, rendered, path) then Restart
              else if exists path :: path !in touched && Differs(obs.files, rendered, path) then Reload
              else ActionNone
    ensures Agree(Taken(l, loaded, Wanted(rendered), second.action), Wanted(rendered)) <==>
              || (exists path :: path !in touched && !l.Reloadable(path) && Differs(obs.files, rendered, path))
              || (forall path <- touched | Differs(obs.files, rendered, path) ::
                    l.Reloadable(path) && exists other :: other !in touched && Differs(obs.files, rendered, other))
  {
    var now := Patched(obs.files, Wanted(rendered), touched);
    ActionChosen(l, rendered, obs.(files := now), drops, second);
    ActionSuffices(l, rendered, obs.(files := now), drops, second, loaded);
    AgreeIsSame(now, Wanted(rendered));
    AgreeIsSame(loaded, obs.files);
    AgreeIsSame(loaded, now);
    forall path
      ensures SameAt(now, Wanted(rendered), path) <==> path in touched || !Differs(obs.files, rendered, path)
      ensures SameAt(loaded, now, path) <==> !(path in touched && Differs(obs.files, rendered, path))
    {
      WorkLeft(obs.files, rendered, touched, path);
      LoadedApart(obs.files, rendered, touched, loaded, path);
    }
    hide Planned, Patched, Wanted, Taken, Agree, SameAt, Differs, Layout.Reloadable;
  }

  /** In particular, if every file landed but the action never happened, the next apply does nothing, and the daemon
      agrees with the disk exactly if the first plan had nothing significant to do. */
  lemma InterruptedApplyIsForgotten(l: Layout, rendered: seq<File>, obs: Observed, drops: bool, first: Plan,
                                    second: Plan, loaded: map<string, Data>)
    requires Planned(l, rendered, true, obs, drops, first) && obs.running && Agree(loaded, obs.files)
    requires Planned(l, rendered, true, obs.(files := Wanted(rendered)), drops, second)
    ensures second.changes == [] && second.action == ActionNone
    ensures Agree(loaded, Wanted(rendered)) <==> !first.Significant()
  {
    NoChangesMeansSame(l, rendered, true, obs.(files := Wanted(rendered)), drops, second);
    InsignificantMeansAgree(l, rendered, true, obs, drops, first);
    hide CanonicalLines;
  }

  /** A unit that was coming up is left alone, so what it has read by then agrees with the new files exactly when
      the plan changed nothing the daemon reads. */
  lemma ActivatingIsLeftAlone(l: Layout, rendered: seq<File>, obs: Observed, drops: bool, plan: Plan, loaded: map<string, Data>)
    requires Planned(l, rendered, true, obs, drops, plan) && !obs.running && obs.starting && Agree(loaded, obs.files)
    ensures plan.action == ActionNone
    ensures Agree(loaded, Wanted(rendered)) <==> !plan.Significant()
  {
    InsignificantMeansAgree(l, rendered, true, obs, drops, plan);
    hide CanonicalLines;
  }

  // ----- an apply cut short between two files -----

  /** A main file and a file a signal rereads, each read differently before and after. */
  datatype TwoFiles = TwoFiles(l: Layout, conf: string, host: string, conf0: Data, conf1: Data, host0: Data, host1: Data)
  {
    predicate Sound() {
      && !l.Reloadable(conf) && l.Reloadable(host) && l.Visible(conf) && l.Visible(host) && Leq(conf, host)
      && CanonicalLines(conf0) != CanonicalLines(conf1) && CanonicalLines(host0) != CanonicalLines(host1)
    }

    function Rendered(): seq<File> { [File(conf, conf1, false), File(host, host1, true)] }

    /** The service running on what was there before, with `main` as the main file by now. */
    function Seen(main: Data): Observed { Observed(map[conf := main, host := host0], true, false, true, true) }

    function First(): Plan { Plan([Change(conf, Update, Restarts), Change(host, Update, Reloads)], Restart, None, Restarts) }

    function Second(): Plan { Plan([Change(host, Update, Reloads)], Reload, None, Reloads) }
  }

  lemma WantedTwo(t: TwoFiles)
    requires t.Sound()
    ensures SoundRendering(t.l, t.Rendered()) && Wanted(t.Rendered()) == map[t.conf := t.conf1, t.host := t.host1]
  {
    hide Layout.Reloadable, Layout.Visible, CanonicalLines;
    var f, g := t.Rendered()[0], t.Rendered()[1];
    assert [f, g][..1] == [f] && [f][..0] == [];
    assert Wanted([]) == map[];
    assert Wanted([f]) == map[][f.path := f.data];
  }

  lemma ChangesAre(t: TwoFiles, main: Data, path: string)
    requires t.Sound() && (main == t.conf0 || main == t.conf1)
    ensures ChangeAt(t.l, Wanted(t.Rendered()), t.Seen(main).files, path) ==
              if path == t.host then Some(Change(t.host, Update, Reloads))
              else if path == t.conf && main == t.conf0 then Some(Change(t.conf, Update, Restarts))
              else None
    ensures Differs(t.Seen(main).files, t.Rendered(), path) <==> path == t.host || (path == t.conf && main == t.conf0)
  {
    WantedTwo(t);
    hide Wanted, CanonicalLines, Layout.Reloadable, Layout.Visible;
  }

  /** The first apply wrote the main file and stopped before the other. The second sees only the other left to do,
      sends a signal and is done, and the daemon keeps the old main file. */
  lemma MidWriteIsNotMended(t: TwoFiles)
    requires t.Sound()
    ensures SoundRendering(t.l, t.Rendered())
    ensures Planned(t.l, t.Rendered(), true, t.Seen(t.conf0), false, t.First())
    ensures Patched(t.Seen(t.conf0).files, Wanted(t.Rendered()), Paths(t.First().changes[..1])) == t.Seen(t.conf1).files
    ensures Planned(t.l, t.Rendered(), true, t.Seen(t.conf1), false, t.Second())
    ensures !Agree(Taken(t.l, t.Seen(t.conf0).files, Wanted(t.Rendered()), t.Second().action), Wanted(t.Rendered()))
  {
    FirstLanded(t);
    var before, after := t.Seen(t.conf0).files, t.Seen(t.conf1).files;
    assert Patched(before, Wanted(t.Rendered()), {t.conf}) == after;
    hide TwoFiles.First, Paths, Wanted, ChangeAt, Patched, Layout.Reloadable, Layout.Visible, Differs, Taken, Agree, SoundRendering, CanonicalLines;
    PlansAre(t);
    AgreesWithItself(before);
    ChangesAre(t, t.conf0, t.conf);
    forall path
      ensures Differs(before, t.Rendered(), path) ==> path == t.conf || path == t.host
    {
      ChangesAre(t, t.conf0, path);
    }
    InterruptedApply(t.l, t.Rendered(), t.Seen(t.conf0), false, {t.conf}, t.Second(), before);
  }

  lemma FirstLanded(t: TwoFiles)
    requires t.Sound()
    ensures SoundRendering(t.l, t.Rendered()) && Paths(t.First().changes[..1]) == {t.conf}
    ensures Patched(t.Seen(t.conf0).files, Wanted(t.Rendered()), {t.conf}) == t.Seen(t.conf1).files
  {
    WantedTwo(t);
    assert t.conf != t.host;
    assert t.First().changes[..1] == [Change(t.conf, Update, Restarts)];
    hide SoundRendering, TwoFiles.Sound, Patched, Wanted, CanonicalLines;
    PatchedOne(t.conf, t.host, t.conf0, t.conf1, t.host0, t.host1);
  }

  lemma PatchedOne(conf: string, host: string, conf0: Data, conf1: Data, host0: Data, host1: Data)
    requires conf != host
    ensures Patched(map[conf := conf0, host := host0], map[conf := conf1, host := host1], {conf}) ==
            map[conf := conf1, host := host0]
  {}

  lemma AgreesWithItself(a: map<string, Data>)
    ensures Agree(a, a)
  {}

  lemma PlansAre(t: TwoFiles)
    requires t.Sound()
    ensures Planned(t.l, t.Rendered(), true, t.Seen(t.conf0), false, t.First())
    ensures Planned(t.l, t.Rendered(), true, t.Seen(t.conf1), false, t.Second())
  {
    FirstExact(t);
    SecondExact(t);
    assert t.First().changes[0] in t.First().changes && t.Second().changes[0] in t.Second().changes;
    hide Exact, Wanted, TwoFiles.Sound, Leq;
  }

  lemma FirstExact(t: TwoFiles)
    requires t.Sound()
    ensures Exact(t.l, Wanted(t.Rendered()), t.Seen(t.conf0).files, t.First().changes)
    ensures Sorted(t.First().changes, PathOfChange)
  {
    var changes := t.First().changes;
    assert t.conf != t.host;
    assert changes[0] in changes && changes[1] in changes;
    forall path
      ensures ChangeAt(t.l, Wanted(t.Rendered()), t.Seen(t.conf0).files, path) ==
                if path == t.host then Some(changes[1]) else if path == t.conf then Some(changes[0]) else None
    {
      ChangesAre(t, t.conf0, path);
    }
    hide Wanted, ChangeAt, CanonicalLines, Layout.Reloadable, Layout.Visible, TwoFiles.Seen, TwoFiles.Rendered;
  }

  lemma SecondExact(t: TwoFiles)
    requires t.Sound()
    ensures Exact(t.l, Wanted(t.Rendered()), t.Seen(t.conf1).files, t.Second().changes)
    ensures Sorted(t.Second().changes, PathOfChange)
  {
    var changes := t.Second().changes;
    assert changes[0] in changes;
    forall path
      ensures ChangeAt(t.l, Wanted(t.Rendered()), t.Seen(t.conf1).files, path) ==
                if path == t.host then Some(changes[0]) else None
    {
      ChangesAre(t, t.conf1, path);
    }
    hide Wanted, ChangeAt, CanonicalLines, Layout.Reloadable, Layout.Visible, TwoFiles.Seen, TwoFiles.Rendered;
  }

  /** Two such files: the main file and one reservation, in any directory. */
  lemma TwoFilesExist(l: Layout)
    ensures TwoFiles(l, l.Conf(), l.HostsDir() + "nas.conf", ["a"], ["b"], ["x"], ["y"]).Sound()
  {
    Places(l, "nas.conf");
    VisibleBelow(l, "nas.conf");
    ConfFirst(l, "nas.conf");
    hide Layout.Reloadable, Layout.Visible, Leq, CanonicalLines;
    OneLine('a', 'b');
    OneLine('x', 'y');
  }

  /** The main file is written before any reservation. */
  lemma ConfFirst(l: Layout, name: string)
    ensures Leq(l.Conf(), l.HostsDir() + name)
  {
    Places(l, name);
    var n := |l.dir| + 1;
    assert l.Conf() == (l.dir + "/") + "dnsmasq.conf" && l.HostsDir() + name == (l.dir + "/") + ("hosts.d/" + name);
    assert l.Conf()[..n] == l.dir + "/" == (l.HostsDir() + name)[..n];
    hide Leq;
    LeqAt(l.Conf(), l.HostsDir() + name, n);
  }

  lemma {:induction false} LeqAt(a: string, b: string, i: nat)
    requires i < |a| && i < |b| && a[..i] == b[..i] && a[i] < b[i]
    ensures Leq(a, b)
  {
    if i > 0 {
      assert a[..i][0] == b[..i][0] && a[..i][1..] == a[1..][..i - 1] && b[..i][1..] == b[1..][..i - 1];
      LeqAt(a[1..], b[1..], i - 1);
    }
  }

  lemma OneLine(c: char, d: char)
    requires !IsSpace(c) && c != '#' && !IsSpace(d) && d != '#' && c != d
    ensures CanonicalLines([[c]]) != CanonicalLines([[d]])
  {
    assert [[c]][..0] == [] && [[d]][..0] == [];
    assert CanonicalLines([]) == [];
    assert CanonicalLines([[c]]) == [[c]] && CanonicalLines([[d]]) == [[d]];
    assert [[c]][0][0] != [[d]][0][0];
  }
}
