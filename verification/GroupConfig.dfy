/** The devices configuration as the code edits it in place, its validation, and the two group requests
    (internal/devices/config.go, internal/devices/validate.go, internal/devices/http.go). */
module GroupConfig {
  import opened Wrappers
  import opened Ordering
  import opened Strings
  import opened Groups
  import opened GroupEdits
  import opened GroupMoves
  import opened GroupRequests

  datatype Problem =
    | NoName(at: nat) | NameTooLong(at: nat) | ControlCharacter(at: nat) | SameName(at: nat, first: nat)
    | NoParent(at: nat) | InsideItself(at: nat) | TooDeep(at: nat, depth: nat) | NoGroup(at: nat)

  /** A parent that is there, above a walk that ends soon enough. */
  ghost predicate ParentOk(gs: seq<Group>, g: Group) {
    g.parent == "" || (Find(gs, g.parent).Some? && Nests(gs, g.name))
  }

  /** The group has a parent there is, and the walk up from it comes back. */
  ghost predicate Loops(gs: seq<Group>, i: nat)
    requires i < |gs|
  {
    gs[i].parent != "" && Find(gs, gs[i].parent).Some? && Revisits(gs, gs[i].name)
  }

  /** The group is at level `depth`, which is past the limit. */
  ghost predicate Deep(gs: seq<Group>, i: nat, depth: nat)
    requires i < |gs|
  {
    MAX_DEPTH < depth == |Above(gs, gs[i].name)| + 1 && Path(gs, gs[i].name, Above(gs, gs[i].name))
  }

  class Config {
    var devices: seq<Device>
    var groups: seq<Group>

    constructor (c: Intent)
      ensures Now() == c
    {
      devices, groups := c.devices, c.groups;
    }

    function Now(): Intent
      reads this
    {
      Intent(devices, groups)
    }

    method Normalize()
      modifies this
      ensures Now() == Normal(old(Now()))
    {
      ghost var c := Now();
      for i := 0 to |devices|
        invariant |devices| == |c.devices| && groups == c.groups
        invariant forall k :: 0 <= k < |devices| ==>
                    devices[k] == if k < i then TrimDevices(c.devices)[k] else c.devices[k]
      {
        devices := devices[i := devices[i].(group := Trim(devices[i].group))];
      }
      assert devices == TrimDevices(c.devices);
      devices := SortBy(devices, MacOf);
      for i := 0 to |groups|
        invariant |groups| == |c.groups| && devices == SortBy(TrimDevices(c.devices), MacOf)
        invariant forall k :: 0 <= k < |groups| ==>
                    groups[k] == if k < i then TrimGroups(c.groups)[k] else c.groups[k]
      {
        groups := groups[i := Group(Trim(groups[i].name), Trim(groups[i].parent))];
      }
      assert groups == TrimGroups(c.groups);
      groups := SortBy(groups, NameOf);
    }

    /** The group is there afterwards as given, every other name means what it did; devices in canonical form stay as
        they are, and an addition leaves everything in that form. */
    method UpsertGroup(g: Group)
      modifies this
      ensures Now() == Upserted(old(Now()), g)
      ensures Clean(old(Now())) && Trim(g.name) == g.name && Trim(g.parent) == g.parent ==>
                forall m :: Find(groups, m) == if m == g.name then Some(g) else Find(old(groups), m)
      ensures Canonical(old(Now())) ==> devices == old(devices)
      ensures Find(old(groups), g.name).None? ==> Canonical(Now())
    {
      UpsertedFinds(Now(), g);
      var i := IndexOf(groups, g.name);
      if i < |groups| {
        groups := groups[i := g];
        return;
      }
      groups := groups + [g];
      Normalize();
    }

    method Repoint(from: string, into: string)
      modifies this
      ensures Now() == Intent(Rehome(old(devices), from, into), Reparent(old(groups), from, into))
    {
      ghost var c := Now();
      for j := 0 to |groups|
        invariant |groups| == |c.groups| && devices == c.devices
        invariant forall k :: 0 <= k < |groups| ==>
                    groups[k] == if k < j then Reparent(c.groups, from, into)[k] else c.groups[k]
      {
        if groups[j].parent == from { groups := groups[j := groups[j].(parent := into)]; }
      }
      for j := 0 to |devices|
        invariant |devices| == |c.devices| && groups == Reparent(c.groups, from, into)
        invariant forall k :: 0 <= k < |devices| ==>
                    devices[k] == if k < j then Rehome(c.devices, from, into)[k] else c.devices[k]
      {
        if devices[j].group == from { devices := devices[j := devices[j].(group := into)]; }
      }
    }

    method RenameGroup(from: string, into: string) returns (found: bool)
      modifies this
      ensures found <==> Find(old(groups), from).Some?
      ensures Now() == if found then Renamed(old(Now()), from, into) else old(Now())
    {
      var i := IndexOf(groups, from);
      if i == |groups| { return false; }
      groups := groups[i := groups[i].(name := into)];
      Repoint(from, into);
      Normalize();
      return true;
    }

    method RemoveGroup(name: string) returns (found: bool)
      modifies this
      ensures found <==> Find(old(groups), name).Some?
      ensures Now() == if found then Removed(old(Now()), name) else old(Now())
    {
      var i := IndexOf(groups, name);
      if i == |groups| { return false; }
      var parent := groups[i].parent;
      groups := groups[..i] + groups[i + 1..];
      Repoint(name, parent);
      Normalize();
      return true;
    }

    /** The chain above a group, nearest first, stopping short of a repeat or a missing group. */
    method Ancestors(name: string) returns (out: seq<string>)
      ensures out == Above(groups, name)
      ensures Path(groups, name, out) <==> !Revisits(groups, name)
    {
      out := [];
      var seen := {name};
      ghost var at := name;
      var g := Find(groups, name);
      hide Climb, Find, Up, Path, Revisits, ParentsOf, LastOf;
      while g.Some? && g.value.parent != "" && g.value.parent !in seen
        invariant g == Find(groups, at)
        invariant out + Climb(groups, at, seen) == Above(groups, name)
        decreases |ParentsOf(groups) - seen|
      {
        var parent := g.value.parent;
        UpOf(groups, at);
        SeenShrinks(groups, at, seen);
        ClimbGoesOn(groups, at, seen);
        assert out + ([parent] + Climb(groups, parent, seen + {parent})) == (out + [parent]) + Climb(groups, parent, seen + {parent});
        out := out + [parent];
        seen := seen + {parent};
        at := parent;
        g := Find(groups, parent);
      }
      UpOf(groups, at);
      ClimbGoesOn(groups, at, seen);
      assert out + [] == out;
      ClimbDecides(groups, name);
    }

    /** Whether walking up from a group comes back to a group already passed. */
    method InCycle(name: string) returns (yes: bool)
      ensures yes <==> Revisits(groups, name)
    {
      var last := name;
      var chain := Ancestors(name);
      if |chain| > 0 { last := chain[|chain| - 1]; }
      ClimbDecides(groups, name);
      var top := Find(groups, last);
      if top.None? || top.value.parent == "" { return false; }
      yes := Find(groups, top.value.parent).Some?;
    }

    method CheckNames() returns (errors: seq<Problem>)
      ensures errors == [] <==> (forall g :: g in groups ==> NameOk(g.name)) && DistinctBy(groups, FoldOf)
    {
      errors := [];
      var seen: map<string, nat> := map[];
      for i := 0 to |groups|
        invariant forall key :: key in seen ==> seen[key] < i && FoldOf(groups[seen[key]]) == key
        invariant forall k :: 0 <= k < i && groups[k].name != "" ==> FoldOf(groups[k]) in seen
        invariant errors == [] <==>
                  (forall k :: 0 <= k < i ==> NameOk(groups[k].name)) && DistinctBy(groups[..i], FoldOf)
      {
        hide DistinctBy, FoldOf, Control;
        var g := groups[i];
        DistinctGrows(groups, i);
        if g.name == "" {
          errors := errors + [NoName(i)];
          continue;
        }
        if |g.name| > MAX_NAME { errors := errors + [NameTooLong(i)]; }
        if exists k :: 0 <= k < |g.name| && Control(g.name[k]) { errors := errors + [ControlCharacter(i)]; }
        var key := FoldOf(g);
        if key in seen {
          errors := errors + [SameName(i, seen[key])];
          continue;
        }
        seen := seen[key := i];
      }
      assert groups[..|groups|] == groups;
    }

    /** The finding about one group's parent, if any. */
    method CheckParent(i: nat) returns (p: Option<Problem>)
      requires i < |groups|
      ensures p.None? <==> ParentOk(groups, groups[i])
      ensures p.Some? ==> p.value.at == i
      ensures p == Some(NoParent(i)) <==> groups[i].parent != "" && Find(groups, groups[i].parent).None?
      ensures p == Some(InsideItself(i)) <==> Loops(groups, i)
      ensures p.Some? && p.value.TooDeep? ==> Deep(groups, i, p.value.depth)
    {
      hide Revisits, Path, Find, Above, Nests;
      var g := groups[i];
      if g.parent == "" { return None; }
      if Find(groups, g.parent).None? { return Some(NoParent(i)); }
      NestsAbove(groups, g.name);
      ClimbDecides(groups, g.name);
      var cycle := InCycle(g.name);
      if cycle { return Some(InsideItself(i)); }
      var above := Ancestors(g.name);
      var depth := |above| + 1;
      p := if depth > MAX_DEPTH then Some(TooDeep(i, depth)) else None;
    }

    /** No error exactly when every group with a parent has one that is there and a short way to the top; a group is
        said to be inside itself exactly when its walk revisits, and too deep only when it is. */
    method CheckParents() returns (errors: seq<Problem>)
      ensures errors == [] <==> forall g :: g in groups ==> ParentOk(groups, g)
      ensures forall i: nat :: InsideItself(i) in errors <==> i < |groups| && Loops(groups, i)
      ensures forall e :: e in errors && e.TooDeep? ==> e.at < |groups| && Deep(groups, e.at, e.depth)
    {
      hide *;
      errors := [];
      for i := 0 to |groups|
        invariant errors == [] <==> forall k :: 0 <= k < i ==> ParentOk(groups, groups[k])
        invariant forall k: nat :: InsideItself(k) in errors <==> k < i && Loops(groups, k)
        invariant forall e :: e in errors && e.TooDeep? ==> e.at < i && Deep(groups, e.at, e.depth)
      {
        var p := CheckParent(i);
        if p.Some? { errors := errors + [p.value]; }
      }
    }

    /** No error exactly when the groups are a forest no deeper than the limit and no device names a missing group. */
    method Validate() returns (errors: seq<Problem>)
      ensures errors == [] <==> Valid(Now())
    {
      errors := [];
      for i := 0 to |devices|
        invariant errors == [] <==>
                  forall k :: 0 <= k < i && devices[k].group != "" ==> Find(groups, devices[k].group).Some?
      {
        if devices[i].group != "" && Find(groups, devices[i].group).None? { errors := errors + [NoGroup(i)]; }
      }
      var names := CheckNames();
      var parents := CheckParents();
      errors := errors + names + parents;
      ForestChecks(groups);
    }
  }

  lemma DistinctGrows(gs: seq<Group>, i: nat)
    requires i < |gs|
    ensures DistinctBy(gs[..i + 1], FoldOf) <==>
            DistinctBy(gs[..i], FoldOf) && forall k :: 0 <= k < i ==> FoldOf(gs[k]) != FoldOf(gs[i])
  {
    hide FoldOf;
    assert gs[..i + 1] == gs[..i] + [gs[i]];
    assert forall k :: 0 <= k < i ==> gs[..i][k] == gs[k] == gs[..i + 1][k];
    if DistinctBy(gs[..i + 1], FoldOf) {
      forall j, k | 0 <= j < k < i
        ensures FoldOf(gs[..i][j]) != FoldOf(gs[..i][k])
      {
        assert FoldOf(gs[..i + 1][j]) != FoldOf(gs[..i + 1][k]);
      }
      forall k | 0 <= k < i
        ensures FoldOf(gs[k]) != FoldOf(gs[i])
      {
        assert FoldOf(gs[..i + 1][k]) != FoldOf(gs[..i + 1][i]);
      }
    }
  }

  /** With names that differ, the checks on parents are what a forest needs: a group without a parent is a root. */
  lemma ForestChecks(gs: seq<Group>)
    ensures Forest(gs) <==>
            (forall g :: g in gs ==> NameOk(g.name)) && DistinctBy(gs, FoldOf) && forall g :: g in gs ==> ParentOk(gs, g)
  {
    if DistinctBy(gs, FoldOf) {
      FoldsApart(gs);
      forall g | g in gs
        ensures ParentOk(gs, g) <==> ParentKnown(gs, g) && Nests(gs, g.name)
      {
        if g.parent == "" {
          FindDistinct(gs, g);
          assert Path(gs, g.name, []);
        }
      }
      hide ParentOk, ParentKnown, Nests, NameOk;
    }
  }

  // ----- the requests -----

  datatype Outcome = Done | NoSuchGroup | NameTaken | Invalid

  class Service {
    var stored: Intent

    /** What is stored is in canonical form and valid. */
    ghost predicate Sound()
      reads this
    {
      Canonical(stored) && Valid(stored)
    }

    /** Nothing is stored to begin with. */
    constructor ()
      ensures Sound()
    {
      stored := Intent([], []);
    }

    /** A removal is never refused for what it would leave behind. */
    method DeleteGroup(name: string) returns (outcome: Outcome)
      requires Sound()
      modifies this
      ensures Sound()
      ensures outcome == if Find(old(stored).groups, name).Some? then Done else NoSuchGroup
      ensures stored == if outcome.Done? then Removed(old(stored), name) else old(stored)
    {
      var desired := new Config(stored);
      var found := desired.RemoveGroup(name);
      if !found { return NoSuchGroup; }
      RemoveKeepsForest(stored, name);
      outcome := Store(desired);
    }

    /** What `mutate` does with the edited copy: normalise, validate, save. */
    method Store(desired: Config) returns (outcome: Outcome)
      requires Sound()
      modifies this, desired
      ensures Sound()
      ensures outcome == if Valid(Normal(old(desired.Now()))) then Done else Invalid
      ensures stored == if outcome.Done? then Normal(old(desired.Now())) else old(stored)
      ensures Canonical(old(desired.Now())) ==> Normal(old(desired.Now())) == old(desired.Now())
    {
      NormalIsCanonical(desired.Now());
      desired.Normalize();
      var errors := desired.Validate();
      if errors != [] { return Invalid; }
      stored := desired.Now();
      outcome := Done;
    }

    /** Creates a group, renames one when the body names another, and moves one when the body names a parent. `edited`
        is what the creation or the rename leaves. */
    method PutGroup(name: string, body: string, parent: Option<string>) returns (outcome: Outcome)
      requires Sound()
      modifies this
      ensures Sound()
      ensures !outcome.Done? ==> stored == old(stored)
      ensures var gs, into := old(stored).groups, Into(name, body);
              && (outcome.NoSuchGroup? <==> Find(gs, name).None? && into != name)
              && (outcome.NameTaken? <==> Find(gs, name).Some? && into != name && Find(gs, into).Some?)
      ensures var gs, into := old(stored).groups, Into(name, body);
              !outcome.NoSuchGroup? && !outcome.NameTaken? ==>
                var edited := Edited(old(stored), name, into);
                && (outcome.Done? <==>
                      && (Find(gs, name).None? ==> NameFree(gs, Trim(name), ""))
                      && (into != name ==> NameFree(gs, into, name))
                      && (parent.Some? ==>
                            Find(edited.groups, into).Some? && MayMove(edited.groups, into, Trim(parent.value))))
                && (outcome.Done? ==>
                      stored == if parent.None? then edited
                                else edited.(groups := Placed(edited.groups, into, Trim(parent.value))))
    {
      ghost var c := stored;
      var into := Trim(body);
      if into == "" { into := name; }
      var desired := new Config(stored);
      if Find(desired.groups, name).None? {
        if into != name { return NoSuchGroup; }
        desired.UpsertGroup(Group(name, ""));
      }
      if into != name {
        if Find(desired.groups, into).Some? { return NameTaken; }
        var _ := desired.RenameGroup(name, into);
      }
      EditedValid(c, name, body);
      ghost var edited := Edited(c, name, into);
      assert desired.Now() == edited;
      if parent.Some? {
        var g := Find(desired.groups, into);
        var over := Trim(parent.value);
        TrimTrimmed(parent.value);
        desired.UpsertGroup(if g.Some? then g.value.(parent := over) else Group("", over));
        if g.Some? {
          assert desired.Now() == edited.(groups := Placed(edited.groups, into, over));
          PlacedCanonical(edited, into, over);
          PlacedValid(edited, into, over);
        } else {
          NamelessInvalid(edited, Group("", over));
        }
      }
      outcome := Store(desired);
    }
  }

  /** The name a request ends with. */
  function Into(name: string, body: string): string { if Trim(body) == "" then name else Trim(body) }

  /** The configuration after the creation or the rename of a request, before any move. */
  function Edited(c: Intent, name: string, into: string): Intent {
    if Find(c.groups, name).None? then Created(c, name) else if into == name then c else Renamed(c, name, into)
  }

  lemma EditedValid(c: Intent, name: string, body: string)
    requires Canonical(c) && Valid(c)
    requires var into := Into(name, body);
             if Find(c.groups, name).None? then into == name else into == name || Find(c.groups, into).None?
    ensures var into := Into(name, body);
            var edited := Edited(c, name, into);
            && Canonical(edited) && (NamesFine(edited.groups) ==> Valid(edited))
            && (Valid(edited) <==> (Find(c.groups, name).None? ==> NameFree(c.groups, Trim(name), "")) &&
                                   (into != name ==> NameFree(c.groups, into, name)))
  {
    var into := Into(name, body);
    TrimTrimmed(body);
    hide Trim, Created, Renamed, Canonical, Find, Valid, NamesFine, NameFree;
    if Find(c.groups, name).None? {
      CreatedValid(c, name);
    } else if into != name {
      RenamedValid(c, name, into);
    }
  }

  lemma RenamedValid(c: Intent, from: string, into: string)
    requires Canonical(c) && Valid(c) && Find(c.groups, from).Some? && Find(c.groups, into).None?
    requires into != "" && Trim(into) == into
    ensures Canonical(Renamed(c, from, into))
    ensures Valid(Renamed(c, from, into)) <==> NameFree(c.groups, into, from)
    ensures NamesFine(Renamed(c, from, into).groups) ==> Valid(Renamed(c, from, into))
  {
    RenameKeepsForest(c, from, into);
    hide Renamed, Canonical, Find, Valid, NameOk, Lower, DistinctBy, Trim, Above, Ladder;
    if NamesFine(Renamed(c, from, into).groups) { RenamedNamesFine(c, from, into); }
  }

  /** A rename that leaves fine names was to a free one. */
  lemma RenamedNamesFine(c: Intent, from: string, into: string)
    requires Renames(c, from, into) && NamesFine(Renamed(c, from, into).groups)
    ensures NameFree(c.groups, into, from)
  {
    RenamedNormal(c, from, into);
    FoldsApart(c.groups);
    RenamedNames(c.groups, from, into);
    hide Renamed, NameOk, DistinctBy, Canonical;
  }

  lemma NormalHas(c: Intent, g: Group)
    requires g in c.groups
    ensures Group(Trim(g.name), Trim(g.parent)) in Normal(c).groups
  {
    var k :| 0 <= k < |c.groups| && c.groups[k] == g;
    assert TrimGroups(c.groups)[k] in TrimGroups(c.groups);
    SortByMembers(TrimGroups(c.groups), NameOf);
  }

  /** A move of a group that is not there adds one without a name, which is refused. */
  lemma NamelessInvalid(c: Intent, g: Group)
    requires g.name == ""
    ensures !Valid(Normal(Upserted(c, g)))
  {
    var i := IndexOf(c.groups, "");
    var named := Group("", Trim(g.parent));
    assert Trim("") == "";
    hide Normal, Trim;
    if i < |c.groups| {
      assert c.groups[i := g][i] == g;
      NormalHas(c.(groups := c.groups[i := g]), g);
      assert named in Normal(Upserted(c, g)).groups;
    } else {
      assert (c.groups + [g])[|c.groups|] == g;
      NormalHas(c.(groups := c.groups + [g]), g);
      NormalHas(Upserted(c, g), named);
    }
    assert exists h :: h in Normal(Upserted(c, g)).groups && h.name == "";
    hide Upserted;
  }
}
