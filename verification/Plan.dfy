/** The plan of an apply (internal/dhcp/plan.go): rendered files against observed ones, and the cheapest action
    that puts the difference in front of the daemon. */
module Plan {
  import opened Wrappers
  import opened Ordering
  import opened Render

  datatype Impact = NoImpact | Reloads | Restarts | Disrupts
  {
    function Rank(): nat {
      match this
      case NoImpact => 0
      case Reloads => 1
      case Restarts => 2
      case Disrupts => 3
    }

    function Max(other: Impact): Impact { if Rank() < other.Rank() then other else this }
  }

  datatype Kind = Create | Update | Delete

  datatype Change = Change(path: string, kind: Kind, impact: Impact)

  datatype Action = ActionNone | Start | Stop | Reload | Restart

  /** What was read of the system. The three facts about the unit are meaningless unless `known`. */
  datatype Observed = Observed(files: map<string, Data>, running: bool, starting: bool, enabledAtBoot: bool, known: bool)

  datatype Plan = Plan(changes: seq<Change>, action: Action, enable: Option<bool>, impact: Impact)
  {
    /** Some change alters what the daemon reads. */
    predicate Significant() { exists c <- changes :: c.impact != NoImpact }

    predicate NothingToDo() { changes == [] && action == ActionNone && enable == None }

    /** The drift answer: a comment that moved does not count. */
    predicate Empty() { action == ActionNone && enable == None && !Significant() }
  }

  function ServiceAction(enabled: bool, running: bool, starting: bool, changed: bool, reloadOnly: bool): Action {
    if enabled && !running && starting then ActionNone
    else if enabled && !running then Start
    else if !enabled && running then Stop
    else if !enabled then ActionNone
    else if !changed then ActionNone
    else if reloadOnly then Reload
    else Restart
  }

  // ----- what a plan has to be -----

  function PathOfChange(c: Change): string { c.path }

  /** The rendered files by path. */
  function Wanted(rendered: seq<File>): map<string, Data> {
    if rendered == [] then map[] else Wanted(rendered[..|rendered| - 1])[rendered[|rendered| - 1].path := rendered[|rendered| - 1].data]
  }

  /** The work one path needs. */
  function ChangeAt(l: Layout, wanted: map<string, Data>, files: map<string, Data>, path: string): Option<Change> {
    var moves := if l.Reloadable(path) then Reloads else Restarts;
    if path in wanted && path in files then
      if wanted[path] == files[path] then None
      else if CanonicalLines(wanted[path]) == CanonicalLines(files[path]) then Some(Change(path, Update, NoImpact))
      else Some(Change(path, Update, moves))
    else if path in wanted then Some(Change(path, Create, moves))
    else if path in files then Some(Change(path, Delete, moves))
    else None
  }

  /** The list names the work of every path that needs some, once, and nothing else. */
  ghost predicate Exact(l: Layout, wanted: map<string, Data>, files: map<string, Data>, changes: seq<Change>) {
    && DistinctBy(changes, PathOfChange)
    && (forall c <- changes :: ChangeAt(l, wanted, files, c.path) == Some(c))
    && (forall path :: ChangeAt(l, wanted, files, path).Some? ==> ChangeAt(l, wanted, files, path).value in changes)
  }

  /** No change needs more than a signal. */
  ghost predicate OnlyReloads(changes: seq<Change>) {
    forall c <- changes :: c.impact != Restarts
  }

  lemma OnlyReloadsAppend(changes: seq<Change>, c: Change)
    ensures OnlyReloads(changes + [c]) <==> OnlyReloads(changes) && c.impact != Restarts
  {
    assert forall d :: d in changes + [c] <==> d in changes || d == c;
  }

  lemma OnlyReloadsSame(a: seq<Change>, b: seq<Change>)
    requires forall c :: c in a <==> c in b
    ensures OnlyReloads(a) <==> OnlyReloads(b)
  {}

  ghost predicate Planned(l: Layout, rendered: seq<File>, enabled: bool, obs: Observed, drops: bool, plan: Plan) {
    && Exact(l, Wanted(rendered), obs.files, plan.changes)
    && Sorted(plan.changes, PathOfChange)
    && plan.action == ServiceAction(enabled, obs.running, obs.starting, plan.Significant(),
                                    OnlyReloads(plan.changes))
    && plan.enable == (if obs.known && enabled != obs.enabledAtBoot then Some(enabled) else None)
    && Worst(plan, drops && obs.running, plan.impact)
  }

  /** What an action by itself does to clients. */
  function ActionImpact(action: Action): Impact {
    match action
    case ActionNone => NoImpact
    case Reload => Reloads
    case Start | Restart => Restarts
    case Stop => Disrupts
  }

  /** The least impact that covers every file, the action, and clients losing their address. */
  ghost predicate Worst(plan: Plan, drops: bool, impact: Impact) {
    && (forall c <- plan.changes :: c.impact.Rank() <= impact.Rank())
    && ActionImpact(plan.action).Rank() <= impact.Rank()
    && (drops ==> impact == Disrupts)
    && (impact == ActionImpact(plan.action) || (drops && impact == Disrupts) || exists c <- plan.changes :: c.impact == impact)
  }

  // ----- the code -----

  lemma {:induction false} WantedHas(rendered: seq<File>)
    requires DistinctPaths(rendered)
    ensures forall f <- rendered :: f.path in Wanted(rendered) && Wanted(rendered)[f.path] == f.data
    ensures forall path <- Wanted(rendered) :: exists f <- rendered :: f.path == path
  {
    if rendered != [] {
      var init := rendered[..|rendered| - 1];
      WantedHas(init);
      forall f | f in init
        ensures f.path != rendered[|rendered| - 1].path
      {
        var i :| 0 <= i < |init| && init[i] == f;
        assert PathOf(rendered[i]) != PathOf(rendered[|rendered| - 1]);
      }
      assert rendered == init + [rendered[|rendered| - 1]];
    }
  }

  /** The part of the list that has been worked out covers the paths in `done`. */
  ghost predicate Partial(l: Layout, wanted: map<string, Data>, files: map<string, Data>, changes: seq<Change>, done: set<string>) {
    && DistinctBy(changes, PathOfChange)
    && (forall c <- changes :: c.path in done && ChangeAt(l, wanted, files, c.path) == Some(c))
    && (forall path <- done :: ChangeAt(l, wanted, files, path).Some? ==> ChangeAt(l, wanted, files, path).value in changes)
  }

  lemma PartialStep(l: Layout, wanted: map<string, Data>, files: map<string, Data>, changes: seq<Change>, done: set<string>, path: string)
    requires Partial(l, wanted, files, changes, done) && path !in done
    ensures ChangeAt(l, wanted, files, path).None? ==> Partial(l, wanted, files, changes, done + {path})
    ensures ChangeAt(l, wanted, files, path).Some? ==>
              Partial(l, wanted, files, changes + [ChangeAt(l, wanted, files, path).value], done + {path})
  {
    if ChangeAt(l, wanted, files, path).Some? {
      var more := changes + [ChangeAt(l, wanted, files, path).value];
      hide Layout.Reloadable, CanonicalLines;
      assert forall c <- changes :: PathOfChange(c) != path;
      forall i, j | 0 <= i < j < |more|
        ensures PathOfChange(more[i]) != PathOfChange(more[j])
      {
        assert more[i] in changes;
      }
    }
  }

  ghost function PathSet(rendered: seq<File>): set<string> {
    set f <- rendered :: f.path
  }

  lemma PathSetStep(rendered: seq<File>, i: nat)
    requires DistinctPaths(rendered) && i < |rendered|
    ensures PathSet(rendered[..i + 1]) == PathSet(rendered[..i]) + {rendered[i].path}
    ensures rendered[i].path !in PathSet(rendered[..i])
  {
    assert rendered[..i + 1] == rendered[..i] + [rendered[i]];
    forall k | 0 <= k < i
      ensures rendered[k].path != rendered[i].path
    {
      assert PathOf(rendered[k]) != PathOf(rendered[i]);
    }
  }

  lemma WantedPaths(rendered: seq<File>)
    requires DistinctPaths(rendered)
    ensures PathSet(rendered) == Wanted(rendered).Keys && PathSet([]) == {}
  {
    WantedHas(rendered);
  }

  /** The work one rendered file needs. */
  method DiffFile(l: Layout, f: File, files: map<string, Data>, ghost wanted: map<string, Data>) returns (c: Option<Change>)
    requires f.path in wanted && wanted[f.path] == f.data && f.reloadable == l.Reloadable(f.path)
    ensures c == ChangeAt(l, wanted, files, f.path)
  {
    hide CanonicalLines, Layout.Reloadable;
    var onDisk := f.path in files;
    if onDisk && files[f.path] == f.data { return None; }
    var kind := if onDisk then Update else Create;
    var impact: Impact;
    if onDisk && CanonicalLines(files[f.path]) == CanonicalLines(f.data) {
      impact := NoImpact;
    } else if f.reloadable {
      impact := Reloads;
    } else {
      impact := Restarts;
    }
    c := Some(Change(f.path, kind, impact));
  }

  /** The rendered files that are new or different on disk. */
  method DiffRendered(l: Layout, rendered: seq<File>, files: map<string, Data>) returns (changes: seq<Change>, reloadOnly: bool)
    requires SoundRendering(l, rendered)
    ensures Partial(l, Wanted(rendered), files, changes, Wanted(rendered).Keys)
    ensures reloadOnly <==> OnlyReloads(changes)
  {
    hide *;
    ghost var wanted := Wanted(rendered);
    Unstarted(l, rendered, wanted, files);
    changes, reloadOnly := [], true;
    assert rendered[..0] == [];
    for i := 0 to |rendered|
      invariant Partial(l, wanted, files, changes, PathSet(rendered[..i]))
      invariant reloadOnly <==> OnlyReloads(changes)
    {
      var f := rendered[i];
      RenderedHas(l, rendered, i);
      PathSetStep(rendered, i);
      PartialStep(l, wanted, files, changes, PathSet(rendered[..i]), f.path);
      var c := DiffFile(l, f, files, wanted);
      if c.None? { continue; }
      OnlyReloadsAppend(changes, c.value);
      if c.value.impact == Restarts { reloadOnly := false; }
      changes := changes + [c.value];
    }
    assert rendered[..|rendered|] == rendered;
  }

  lemma Unstarted(l: Layout, rendered: seq<File>, wanted: map<string, Data>, files: map<string, Data>)
    requires SoundRendering(l, rendered)
    ensures Partial(l, wanted, files, [], PathSet([])) && OnlyReloads([])
    ensures DistinctPaths(rendered) && PathSet(rendered) == Wanted(rendered).Keys
  {
    WantedPaths(rendered);
  }

  lemma RenderedHas(l: Layout, rendered: seq<File>, i: nat)
    requires SoundRendering(l, rendered) && i < |rendered|
    ensures var f := rendered[i];
            f.path in Wanted(rendered) && Wanted(rendered)[f.path] == f.data && f.reloadable == l.Reloadable(f.path)
  {
    WantedHas(rendered);
    assert rendered[i] in rendered;
  }

  lemma StrayChange(l: Layout, wanted: map<string, Data>, files: map<string, Data>, path: string)
    requires path in files && path !in wanted
    ensures ChangeAt(l, wanted, files, path) == Some(Change(path, Delete, if l.Reloadable(path) then Reloads else Restarts))
  {}

  /** The files on disk that the configuration no longer produces. */
  method DiffStray(l: Layout, rendered: seq<File>, files: map<string, Data>, diff: seq<Change>, rendersReload: bool)
    returns (changes: seq<Change>, reloadOnly: bool)
    requires SoundRendering(l, rendered)
    requires Partial(l, Wanted(rendered), files, diff, Wanted(rendered).Keys)
    requires rendersReload <==> OnlyReloads(diff)
    ensures Exact(l, Wanted(rendered), files, changes)
    ensures reloadOnly <==> OnlyReloads(changes)
  {
    hide *;
    ghost var wanted := Wanted(rendered);
    Named(l, rendered);
    changes, reloadOnly := diff, rendersReload;
    ghost var done := wanted.Keys;
    var todo := files.Keys;
    while todo != {}
      invariant todo <= files.Keys
      invariant Partial(l, wanted, files, changes, done)
      invariant done == wanted.Keys + (files.Keys - todo)
      invariant reloadOnly <==> OnlyReloads(changes)
      decreases todo
    {
      var path :| path in todo;
      todo := todo - {path};
      if exists i :: 0 <= i < |rendered| && rendered[i].path == path { continue; }
      assert path !in wanted;
      StrayChange(l, wanted, files, path);
      PartialStep(l, wanted, files, changes, done, path);
      done := done + {path};
      var reloadable := l.Reloadable(path);
      if !reloadable { reloadOnly := false; }
      var stray := Change(path, Delete, if reloadable then Reloads else Restarts);
      OnlyReloadsAppend(changes, stray);
      changes := changes + [stray];
    }
    Covered(l, wanted, files, changes, done);
  }

  lemma Named(l: Layout, rendered: seq<File>)
    requires SoundRendering(l, rendered)
    ensures forall path :: path in Wanted(rendered) <==> exists i :: 0 <= i < |rendered| && rendered[i].path == path
  {
    WantedHas(rendered);
  }

  lemma Covered(l: Layout, wanted: map<string, Data>, files: map<string, Data>, changes: seq<Change>, done: set<string>)
    requires Partial(l, wanted, files, changes, done) && done == wanted.Keys + files.Keys
    ensures Exact(l, wanted, files, changes)
  {
    hide CanonicalLines, Layout.Reloadable;
  }

  lemma SortedExact(l: Layout, wanted: map<string, Data>, files: map<string, Data>, listed: seq<Change>)
    requires Exact(l, wanted, files, listed)
    ensures Exact(l, wanted, files, SortBy(listed, PathOfChange))
    ensures Sorted(SortBy(listed, PathOfChange), PathOfChange)
    ensures forall c :: c in SortBy(listed, PathOfChange) <==> c in listed
  {
    hide ChangeAt;
    SortBySorts(listed, PathOfChange);
    SortByMembers(listed, PathOfChange);
    SortByDistinct(listed, PathOfChange);
  }

  method BuildPlan(l: Layout, rendered: seq<File>, enabled: bool, obs: Observed, drops: bool) returns (plan: Plan)
    requires SoundRendering(l, rendered)
    ensures Planned(l, rendered, enabled, obs, drops, plan)
  {
    hide Layout.Reloadable, CanonicalLines, Wanted, Exact, Partial, Sorted, DistinctBy, SoundRendering;
    var diff, rendersReload := DiffRendered(l, rendered, obs.files);
    var listed, reloadOnly := DiffStray(l, rendered, obs.files, diff, rendersReload);
    var changes := SortBy(listed, PathOfChange);
    SortedExact(l, Wanted(rendered), obs.files, listed);
    OnlyReloadsSame(changes, listed);
    hide SortBy, OnlyReloads;
    plan := Plan(changes, ActionNone, None, NoImpact);
    plan := plan.(action := ServiceAction(enabled, obs.running, obs.starting, plan.Significant(), reloadOnly));
    if obs.known && enabled != obs.enabledAtBoot {
      plan := plan.(enable := Some(enabled));
    }
    var impact := Classify(plan, drops, obs.running);
    plan := plan.(impact := impact);
  }

  /** Reduces the plan to one impact: it covers every change, the action and dropped clients, and is no worse than
      the worst of them. No file by itself disrupts, so disruption means dropped clients or a stop. */
  method Classify(plan: Plan, drops: bool, running: bool) returns (impact: Impact)
    ensures Worst(plan, drops && running, impact)
    ensures (forall c <- plan.changes :: c.impact != Disrupts) ==>
              (impact == Disrupts <==> (drops && running) || plan.action == Stop)
  {
    impact := NoImpact;
    for i := 0 to |plan.changes|
      invariant forall c <- plan.changes[..i] :: c.impact.Rank() <= impact.Rank()
      invariant impact == NoImpact || exists c <- plan.changes[..i] :: c.impact == impact
    {
      assert plan.changes[..i + 1] == plan.changes[..i] + [plan.changes[i]];
      impact := impact.Max(plan.changes[i].impact);
    }
    assert plan.changes[..|plan.changes|] == plan.changes;
    match plan.action {
      case Restart | Start => impact := impact.Max(Restarts);
      case Reload => impact := impact.Max(Reloads);
      case _ =>
    }
    if drops && running {
      impact := Disrupts;
    }
    if plan.action == Stop {
      impact := Disrupts;
    }
  }

  // ----- properties of every plan -----

  /** A plan changes nothing on disk exactly when the observed files are the rendered ones. */
  lemma NoChangesMeansSame(l: Layout, rendered: seq<File>, enabled: bool, obs: Observed, drops: bool, plan: Plan)
    requires Planned(l, rendered, enabled, obs, drops, plan)
    ensures plan.changes == [] <==> obs.files == Wanted(rendered)
  {
    hide Layout.Reloadable, CanonicalLines;
    var wanted := Wanted(rendered);
    if plan.changes == [] {
      forall path
        ensures path in wanted <==> path in obs.files
        ensures path in wanted && path in obs.files ==> wanted[path] == obs.files[path]
      {
        assert ChangeAt(l, wanted, obs.files, path).None?;
      }
    } else {
      assert plan.changes[0] in plan.changes;
    }
  }

  /** What the daemon reads is the same in both. */
  ghost predicate Agree(a: map<string, Data>, b: map<string, Data>) {
    a.Keys == b.Keys && forall path <- a :: CanonicalLines(a[path]) == CanonicalLines(b[path])
  }

  /** No significant change exactly when the daemon would read the same from either. */
  lemma InsignificantMeansAgree(l: Layout, rendered: seq<File>, enabled: bool, obs: Observed, drops: bool, plan: Plan)
    requires Planned(l, rendered, enabled, obs, drops, plan)
    ensures !plan.Significant() <==> Agree(obs.files, Wanted(rendered))
  {
    hide Layout.Reloadable, CanonicalLines;
    var wanted := Wanted(rendered);
    if !plan.Significant() {
      forall path
        ensures path in wanted <==> path in obs.files
        ensures path in wanted && path in obs.files ==> CanonicalLines(wanted[path]) == CanonicalLines(obs.files[path])
      {
        var c := ChangeAt(l, wanted, obs.files, path);
        if c.Some? { assert c.value in plan.changes; }
      }
    } else {
      var c :| c in plan.changes && c.impact != NoImpact;
      assert ChangeAt(l, wanted, obs.files, c.path) == Some(c);
    }
  }

  /** The daemon's files after a signal: the reread directories from disk, the rest as before. */
  function Reread(l: Layout, loaded: map<string, Data>, disk: map<string, Data>): map<string, Data> {
    (map path | path in loaded && !l.Reloadable(path) :: loaded[path]) + (map path | path in disk && l.Reloadable(path) :: disk[path])
  }

  ghost predicate SameAt(a: map<string, Data>, b: map<string, Data>, path: string) {
    (path in a <==> path in b) && (path in a ==> CanonicalLines(a[path]) == CanonicalLines(b[path]))
  }

  /** `a` and `b` agree on what a signal does not reread. */
  ghost predicate AgreeOutside(l: Layout, a: map<string, Data>, b: map<string, Data>) {
    forall path :: !l.Reloadable(path) ==> SameAt(a, b, path)
  }

  lemma AgreeIsSame(a: map<string, Data>, b: map<string, Data>)
    ensures Agree(a, b) <==> forall path :: SameAt(a, b, path)
  {
    hide CanonicalLines;
    if Agree(a, b) {
      forall path
        ensures SameAt(a, b, path)
      {
        assert path in a <==> path in b;
      }
    } else if forall path :: SameAt(a, b, path) {
      forall path
        ensures path in a <==> path in b
      {
        assert SameAt(a, b, path);
      }
      assert forall path <- a :: SameAt(a, b, path);
    }
  }

  /** What the running daemon holds after the action, with `wanted` on disk. */
  function Taken(l: Layout, loaded: map<string, Data>, wanted: map<string, Data>, action: Action): map<string, Data> {
    match action
    case ActionNone => loaded
    case Reload => Reread(l, loaded, wanted)
    case _ => wanted
  }

  /** Which action a running service gets, from the files alone: a restart if something a signal does not reread
      differs in what the daemon reads, a signal if only something it does reread differs, and nothing otherwise. */
  lemma ActionChosen(l: Layout, rendered: seq<File>, obs: Observed, drops: bool, plan: Plan)
    requires Planned(l, rendered, true, obs, drops, plan) && obs.running
    ensures plan.action == if !AgreeOutside(l, obs.files, Wanted(rendered)) then Restart
                           else if !Agree(obs.files, Wanted(rendered)) then Reload else ActionNone
  {
    var wanted := Wanted(rendered);
    InsignificantMeansAgree(l, rendered, true, obs, drops, plan);
    hide Layout.Reloadable, CanonicalLines, Wanted;
    if OnlyReloads(plan.changes) {
      forall path | !l.Reloadable(path)
        ensures SameAt(obs.files, wanted, path)
      {
        var c := ChangeAt(l, wanted, obs.files, path);
        if c.Some? { assert c.value in plan.changes; }
      }
    } else {
      var c :| c in plan.changes && c.impact == Restarts;
      assert ChangeAt(l, wanted, obs.files, c.path) == Some(c);
      assert !SameAt(obs.files, wanted, c.path);
    }
  }

  /** After a signal the daemon holds what is on disk exactly if it did so already where a signal does not reach. */
  lemma RereadAgrees(l: Layout, loaded: map<string, Data>, wanted: map<string, Data>)
    ensures Agree(Reread(l, loaded, wanted), wanted) <==> AgreeOutside(l, loaded, wanted)
  {
    var now := Reread(l, loaded, wanted);
    AgreeIsSame(now, wanted);
    hide Layout.Reloadable, CanonicalLines, Agree;
    forall path
      ensures SameAt(now, wanted, path) <==> l.Reloadable(path) || SameAt(loaded, wanted, path)
    {
    }
  }

  /** When the planned action leaves the daemon in agreement with the rendered files, whatever it held before: after
      doing nothing, exactly if it agreed with the disk; after a signal, exactly if it agreed with the disk on what a
      signal does not reread; after a restart always. */
  lemma ActionSuffices(l: Layout, rendered: seq<File>, obs: Observed, drops: bool, plan: Plan, loaded: map<string, Data>)
    requires Planned(l, rendered, true, obs, drops, plan) && obs.running
    ensures var wanted := Wanted(rendered);
            Agree(Taken(l, loaded, wanted, plan.action), wanted) <==>
            match plan.action
            case ActionNone => Agree(loaded, obs.files)
            case Reload => AgreeOutside(l, loaded, obs.files)
            case _ => true
  {
    var wanted := Wanted(rendered);
    ActionChosen(l, rendered, obs, drops, plan);
    RereadAgrees(l, loaded, wanted);
    hide Planned, Wanted, Reread, CanonicalLines, Layout.Reloadable;
    SwapAgree(l, loaded, obs.files, wanted);
  }

  /** Agreement carries over between maps that agree. */
  lemma SwapAgree(l: Layout, a: map<string, Data>, b: map<string, Data>, c: map<string, Data>)
    ensures Agree(b, c) ==> (Agree(a, b) <==> Agree(a, c))
    ensures AgreeOutside(l, b, c) ==> (AgreeOutside(l, a, b) <==> AgreeOutside(l, a, c))
    ensures Agree(c, c)
  {
    hide CanonicalLines, Layout.Reloadable;
    if AgreeOutside(l, b, c) {
      forall path | !l.Reloadable(path)
        ensures SameAt(a, b, path) <==> SameAt(a, c, path)
      {
        assert SameAt(b, c, path);
      }
    }
  }

  /** The planner never picks the cheap action when the dear one was needed: if what the daemon holds agreed with
      the disk, it agrees with the rendered files after whatever the plan says is enough. */
  lemma CheapActionIsEnough(l: Layout, rendered: seq<File>, obs: Observed, drops: bool, plan: Plan, loaded: map<string, Data>)
    requires Planned(l, rendered, true, obs, drops, plan) && obs.running && Agree(loaded, obs.files)
    ensures Agree(Taken(l, loaded, Wanted(rendered), plan.action), Wanted(rendered))
  {
    ActionSuffices(l, rendered, obs, drops, plan, loaded);
    AgreeIsSame(loaded, obs.files);
    hide Planned, Wanted, Taken, Agree, SameAt, Layout.Reloadable;
  }

  /** And it never picks the dear action when the cheap one would do: a restart means that a signal would leave the
      daemon apart from the rendered files, and a signal that doing nothing would. */
  lemma DearActionIsNeeded(l: Layout, rendered: seq<File>, obs: Observed, drops: bool, plan: Plan, loaded: map<string, Data>)
    requires Planned(l, rendered, true, obs, drops, plan) && obs.running && Agree(loaded, obs.files)
    ensures plan.action == Restart ==> !Agree(Taken(l, loaded, Wanted(rendered), Reload), Wanted(rendered))
    ensures plan.action != ActionNone ==> !Agree(Taken(l, loaded, Wanted(rendered), ActionNone), Wanted(rendered))
  {
    var wanted := Wanted(rendered);
    ActionChosen(l, rendered, obs, drops, plan);
    RereadAgrees(l, loaded, wanted);
    AgreeIsSame(loaded, obs.files);
    AgreeIsSame(loaded, wanted);
    AgreeIsSame(obs.files, wanted);
    hide Planned, Wanted, Reread, CanonicalLines, Layout.Reloadable, Agree;
  }

  /** The drift answer is no exactly when the daemon would read the same from disk as from what is rendered, and the
      unit runs, or is coming up, and starts at boot exactly as it should. */
  lemma EmptyMeansNoDrift(l: Layout, rendered: seq<File>, enabled: bool, obs: Observed, drops: bool, plan: Plan)
    requires Planned(l, rendered, enabled, obs, drops, plan)
    ensures plan.Empty() <==>
            && Agree(obs.files, Wanted(rendered))
            && (if enabled then obs.running || obs.starting else !obs.running)
            && (obs.known ==> obs.enabledAtBoot == enabled)
  {
    InsignificantMeansAgree(l, rendered, enabled, obs, drops, plan);
    hide Exact, Agree, Wanted;
  }

  lemma NoneDisrupts(l: Layout, wanted: map<string, Data>, files: map<string, Data>, changes: seq<Change>)
    requires Exact(l, wanted, files, changes)
    ensures forall c <- changes :: c.impact != Disrupts
  {
    hide Layout.Reloadable, CanonicalLines;
    forall c | c in changes
      ensures c.impact != Disrupts
    {
      assert ChangeAt(l, wanted, files, c.path) == Some(c);
    }
  }

  /** The impact of every plan: disruptive for dropped clients or a stop; a restart if the service starts or restarts or
      something a signal does not reread differs; a reload if only something a signal rereads does; else none. */
  lemma ImpactMeans(l: Layout, rendered: seq<File>, enabled: bool, obs: Observed, drops: bool, plan: Plan)
    requires Planned(l, rendered, enabled, obs, drops, plan)
    ensures plan.impact ==
            if (drops && obs.running) || plan.action == Stop then Disrupts
            else if plan.action == Start || plan.action == Restart || !AgreeOutside(l, obs.files, Wanted(rendered)) then Restarts
            else if !Agree(obs.files, Wanted(rendered)) then Reloads
            else NoImpact
  {
    InsignificantMeansAgree(l, rendered, enabled, obs, drops, plan);
    NoneDisrupts(l, Wanted(rendered), obs.files, plan.changes);
    ReloadsMeanOutside(l, rendered, obs.files, plan.changes);
    hide Exact, Agree, AgreeOutside, Wanted, Sorted;
  }

  lemma ReloadsMeanOutside(l: Layout, rendered: seq<File>, files: map<string, Data>, changes: seq<Change>)
    requires Exact(l, Wanted(rendered), files, changes)
    ensures OnlyReloads(changes) <==> AgreeOutside(l, files, Wanted(rendered))
  {
    var wanted := Wanted(rendered);
    hide Layout.Reloadable, CanonicalLines, Wanted;
    if OnlyReloads(changes) {
      forall path | !l.Reloadable(path)
        ensures SameAt(files, wanted, path)
      {
        var c := ChangeAt(l, wanted, files, path);
        if c.Some? { assert c.value in changes; }
      }
    } else {
      var c :| c in changes && c.impact == Restarts;
      assert ChangeAt(l, wanted, files, c.path) == Some(c);
      assert !SameAt(files, wanted, c.path);
    }
  }

  /** What a plan lists: a path once if its bytes have to change and else not; created if it is not on disk, deleted if
      it is not rendered; without impact if the daemon reads the same, and otherwise a reload exactly in the directories a
      signal rereads. */
  lemma ChangesMean(l: Layout, rendered: seq<File>, enabled: bool, obs: Observed, drops: bool, plan: Plan, path: string)
    requires Planned(l, rendered, enabled, obs, drops, plan)
    ensures var wanted := Wanted(rendered);
            (exists c :: c in plan.changes && c.path == path) <==>
            (path in wanted) != (path in obs.files) || (path in wanted && wanted[path] != obs.files[path])
    ensures forall i, j :: 0 <= i < j < |plan.changes| ==> plan.changes[i].path != plan.changes[j].path
    ensures var wanted := Wanted(rendered);
            forall c <- plan.changes | c.path == path ::
              && (c.kind == Create <==> path !in obs.files) && (c.kind == Delete <==> path !in wanted)
              && c.impact == if SameAt(obs.files, wanted, path) then NoImpact
                             else if l.HostsDir() <= path || l.OptsDir() <= path then Reloads else Restarts
  {
    var wanted := Wanted(rendered);
    hide CanonicalLines, Wanted;
    forall i, j | 0 <= i < j < |plan.changes|
      ensures plan.changes[i].path != plan.changes[j].path
    {
      assert PathOfChange(plan.changes[i]) != PathOfChange(plan.changes[j]);
    }
    var c := ChangeAt(l, wanted, obs.files, path);
    if c.Some? { assert c.value in plan.changes && c.value.path == path; }
    forall d | d in plan.changes && d.path == path
      ensures c == Some(d)
    {}
  }
}
