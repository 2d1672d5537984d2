/** When the result of a group request can be stored: a new group, and a move on top of a rename or a creation
    (internal/devices/http.go, internal/devices/validate.go). */
module GroupRequests {
  import opened Wrappers
  import opened Ordering
  import opened Strings
  import opened Groups
  import opened GroupEdits
  import opened GroupMoves

  /** A name that may be used and that no group but `except` has, in whatever case. */
  ghost predicate NameFree(gs: seq<Group>, name: string, except: string) {
    NameOk(name) && forall g :: g in gs && g.name != except ==> Lower(g.name) != Lower(name)
  }

  ghost predicate NamesFine(gs: seq<Group>) {
    (forall g :: g in gs ==> NameOk(g.name)) && DistinctBy(gs, FoldOf)
  }

  // ----- a new group -----

  function Created(c: Intent, name: string): Intent {
    Normal(c.(groups := c.groups + [Group(name, "")]))
  }

  lemma TrimAdded(c: Intent, name: string)
    requires Clean(c)
    ensures var raw := c.(groups := c.groups + [Group(Trim(name), "")]);
            && Clean(raw) && TrimGroups(c.groups + [Group(name, "")]) == raw.groups && TrimDevices(c.devices) == c.devices
            && TrimGroups(raw.groups) == raw.groups
  {
    TrimTrimmed(name);
    assert Trim("") == "";
    hide Trim;
    var gs := c.groups;
    assert forall k :: 0 <= k < |gs| ==> gs[k] in gs;
  }

  /** The new group as the normal form has it. */
  lemma CreatedRaw(c: Intent, name: string)
    requires Canonical(c)
    ensures var raw := c.(groups := c.groups + [Group(Trim(name), "")]);
            Clean(raw) && Created(c, name) == Intent(c.devices, SortBy(raw.groups, NameOf)) && Canonical(Created(c, name))
  {
    TrimAdded(c, name);
    SortedFixed(c.devices, MacOf);
    NormalIsCanonical(c.(groups := c.groups + [Group(name, "")]));
    hide Trim, TrimGroups, TrimDevices, Clean, SortBy, Sorted, Canonical;
  }

  lemma FindAdded(gs: seq<Group>, g: Group, m: string)
    ensures Find(gs + [g], m) == if Find(gs, m).Some? then Find(gs, m) else if g.name == m then Some(g) else None
  {
    var i, j := IndexOf(gs, m), IndexOf(gs + [g], m);
    assert forall k :: 0 <= k < |gs| ==> (gs + [g])[k] == gs[k];
    assert (gs + [g])[|gs|] == g;
    assert i < |gs| ==> (gs + [g])[i].name == m;
    assert j < |gs| ==> gs[j].name == m;
  }

  lemma CreatedFinds(c: Intent, name: string, m: string)
    requires Canonical(c)
    ensures Find(Created(c, name).groups, m) ==
            if Find(c.groups, m).Some? then Find(c.groups, m) else if m == Trim(name) then Some(Group(m, "")) else None
  {
    CreatedRaw(c, name);
    SortedFinds(c.groups + [Group(Trim(name), "")]);
    FindAdded(c.groups, Group(Trim(name), ""), m);
  }

  lemma NamesPermuted(a: seq<Group>, b: seq<Group>)
    requires multiset(a) == multiset(b)
    ensures NamesFine(a) <==> NamesFine(b)
  {
    hide NameOk, FoldOf;
    assert forall g :: g in a <==> g in multiset(a);
    assert forall g :: g in b <==> g in multiset(b);
    if DistinctBy(a, FoldOf) { DistinctByPermuted(a, b, FoldOf); }
    if DistinctBy(b, FoldOf) { DistinctByPermuted(b, a, FoldOf); }
  }

  lemma NamesAdded(gs: seq<Group>, g: Group)
    requires NamesFine(gs)
    ensures NamesFine(gs + [g]) <==> NameFree(gs, g.name, "")
  {
    DistinctByAppend(gs, g, FoldOf);
    assert !NameOk("");
    hide NameOk, DistinctBy, Lower;
    assert forall h :: h in gs + [g] <==> h in gs || h == g;
    assert g in gs + [g];
    assert forall h :: h in gs ==> FoldOf(h) == Lower(h.name) && h.name != "";
  }

  lemma CreatedNames(c: Intent, name: string)
    requires Canonical(c) && NamesFine(c.groups)
    ensures NamesFine(Created(c, name).groups) <==> NameFree(c.groups, Trim(name), "")
  {
    CreatedRaw(c, name);
    var raw := c.groups + [Group(Trim(name), "")];
    SortBySorts(raw, NameOf);
    hide SortBy, Created, NameFree, NamesFine, Canonical, Clean, Sorted, Trim;
    NamesPermuted(raw, Created(c, name).groups);
    NamesAdded(c.groups, Group(Trim(name), ""));
  }

  /** A group with a free name can be added to what is stored, and only such a group. */
  lemma CreatedValid(c: Intent, name: string)
    requires Canonical(c) && Valid(c) && Find(c.groups, name).None?
    ensures Canonical(Created(c, name))
    ensures Valid(Created(c, name)) <==> NameFree(c.groups, Trim(name), "")
    ensures NamesFine(Created(c, name).groups) ==> Valid(Created(c, name))
  {
    hide Created, Canonical, NameFree, Find, Clean, Trim, ParentKnown, Nests, NameOk, DistinctBy;
    CreatedRaw(c, name);
    CreatedNames(c, name);
    if NameFree(c.groups, Trim(name), "") { CreatedForest(c, name); }
  }

  lemma CreatedForest(c: Intent, name: string)
    requires Canonical(c) && Valid(c) && NameFree(c.groups, Trim(name), "") && NamesFine(Created(c, name).groups)
    ensures Valid(Created(c, name))
  {
    hide Created, Canonical, NameFree, Find, Clean, Trim, ParentKnown, Nests, NameOk, DistinctBy;
    CreatedRaw(c, name);
    FreshName(c.groups, Trim(name));
    var hs := Created(c, name).groups;
    forall h | h in hs
      ensures ParentKnown(hs, h) && Nests(hs, h.name)
    {
      CreatedHangs(c, name, h);
    }
    forall d | d in c.devices && d.group != ""
      ensures Find(hs, d.group).Some?
    {
      CreatedFinds(c, name, d.group);
    }
  }

  lemma FreshName(gs: seq<Group>, name: string)
    requires NameFree(gs, name, "") && NamesFine(gs)
    ensures Find(gs, name).None?
  {
    forall g | g in gs
      ensures g.name != name
    {
      NotEmpty(gs, g);
    }
  }

  lemma NotEmpty(gs: seq<Group>, g: Group)
    requires NamesFine(gs) && g in gs
    ensures g.name != ""
  {
    assert NameOk(g.name);
  }

  lemma CreatedHangs(c: Intent, name: string, h: Group)
    requires Canonical(c) && Valid(c) && NamesFine(Created(c, name).groups) && Find(c.groups, Trim(name)).None?
    requires h in Created(c, name).groups
    ensures ParentKnown(Created(c, name).groups, h) && Nests(Created(c, name).groups, h.name)
  {
    var gs, hs := c.groups, Created(c, name).groups;
    FoldsApart(hs);
    FindDistinct(hs, h);
    CreatedFinds(c, name, h.name);
    CreatedFinds(c, name, h.parent);
    if h.name == Trim(name) {
      assert Path(hs, h.name, []);
    } else {
      ForestClimbs(gs, h.name);
      assert ParentKnown(gs, h);
      hide Created, Find, Above, Trim;
      CreatedUps(c, name);
      PathAgrees(gs, hs, h.name, Above(gs, h.name));
    }
  }

  lemma CreatedUps(c: Intent, name: string)
    requires Canonical(c)
    ensures forall m :: Find(c.groups, m).Some? ==> Up(Created(c, name).groups, m) == Up(c.groups, m)
  {
    forall m | Find(c.groups, m).Some?
      ensures Up(Created(c, name).groups, m) == Up(c.groups, m)
    {
      CreatedFinds(c, name, m);
    }
  }

  // ----- a move on top of that -----

  lemma PlacedNames(gs: seq<Group>, x: string, parent: string)
    requires Find(gs, x).Some?
    ensures NamesFine(Placed(gs, x, parent)) ==> NamesFine(gs)
  {
    var hs := Placed(gs, x, parent);
    assert forall k :: 0 <= k < |gs| ==> hs[k].name == gs[k].name && FoldOf(hs[k]) == FoldOf(gs[k]) && hs[k] in hs;
    hide Placed, NameOk, FoldOf;
    if DistinctBy(hs, FoldOf) {
      forall j, k | 0 <= j < k < |gs|
        ensures FoldOf(gs[j]) != FoldOf(gs[k])
      {
        assert FoldOf(hs[j]) != FoldOf(hs[k]);
      }
    }
  }

  lemma PlacedCanonical(c: Intent, x: string, parent: string)
    requires Canonical(c) && Find(c.groups, x).Some? && Trim(parent) == parent
    ensures Canonical(c.(groups := Placed(c.groups, x, parent)))
  {
    var gs, hs := c.groups, Placed(c.groups, x, parent);
    forall h | h in hs
      ensures Trim(h.name) == h.name && Trim(h.parent) == h.parent
    {
      var k :| 0 <= k < |hs| && hs[k] == h;
      assert gs[k] in gs;
    }
    forall i, j | 0 <= i < j < |hs|
      ensures Leq(NameOf(hs[i]), NameOf(hs[j]))
    {
      assert Leq(NameOf(gs[i]), NameOf(gs[j]));
    }
  }

  /** A configuration that only its names could make invalid can be stored with a group moved exactly if it is valid
      and the group may move. */
  lemma PlacedValid(c: Intent, x: string, parent: string)
    requires NamesFine(c.groups) ==> Valid(c)
    requires Find(c.groups, x).Some?
    ensures Valid(c.(groups := Placed(c.groups, x, parent))) <==> Valid(c) && MayMove(c.groups, x, parent)
  {
    var gs, hs := c.groups, Placed(c.groups, x, parent);
    PlacedNames(gs, x, parent);
    if Valid(c) {
      MoveAllowed(gs, x, parent);
      forall d | d in c.devices && d.group != ""
        ensures Find(hs, d.group).Some?
      {
        PlacedFinds(gs, x, parent, d.group);
      }
    }
    hide Placed, Find, Above, Over, Regraft, DistinctBy, NameOk;
  }

  // ----- one group set -----

  lemma TrimIsClean(c: Intent)
    requires Clean(c)
    ensures Intent(TrimDevices(c.devices), TrimGroups(c.groups)) == c
  {
    hide Trim;
    assert forall k :: 0 <= k < |c.groups| ==> c.groups[k] in c.groups;
    assert forall k :: 0 <= k < |c.devices| ==> c.devices[k] in c.devices;
  }

  lemma ReplacedFinds(gs: seq<Group>, g: Group, m: string)
    requires Find(gs, g.name).Some?
    ensures Find(gs[IndexOf(gs, g.name) := g], m) == if m == g.name then Some(g) else Find(gs, m)
  {
    var i := IndexOf(gs, g.name);
    var hs := gs[i := g];
    assert forall k :: 0 <= k < |gs| ==> hs[k].name == gs[k].name;
    SameNames(gs, hs, m);
  }

  lemma SameNames(gs: seq<Group>, hs: seq<Group>, m: string)
    requires |gs| == |hs| && forall k :: 0 <= k < |gs| ==> hs[k].name == gs[k].name
    ensures IndexOf(gs, m) == IndexOf(hs, m)
  {
    var i, j := IndexOf(gs, m), IndexOf(hs, m);
    assert i < |gs| ==> hs[i].name == m;
    assert j < |gs| ==> gs[j].name == m;
  }

  /** Setting a group means: it is there as given, and every other name means what it did. */
  lemma UpsertedFinds(c: Intent, g: Group)
    ensures Clean(c) && Trim(g.name) == g.name && Trim(g.parent) == g.parent ==>
              forall m :: Find(Upserted(c, g).groups, m) == if m == g.name then Some(g) else Find(c.groups, m)
    ensures Canonical(c) ==> Upserted(c, g).devices == c.devices
    ensures Find(c.groups, g.name).None? ==> Canonical(Upserted(c, g))
  {
    var raw := c.(groups := c.groups + [g]);
    NormalIsCanonical(raw);
    if Clean(c) && Trim(g.name) == g.name && Trim(g.parent) == g.parent {
      assert Clean(raw);
      NormalOfClean(raw);
      forall m
        ensures Find(Upserted(c, g).groups, m) == if m == g.name then Some(g) else Find(c.groups, m)
      {
        if Find(c.groups, g.name).Some? {
          ReplacedFinds(c.groups, g, m);
        } else {
          SortFinds(raw.groups, m);
          FindAdded(c.groups, g, m);
        }
      }
    }
    if Canonical(c) {
      TrimIsClean(c);
      SortedFixed(c.devices, MacOf);
    }
  }
}
