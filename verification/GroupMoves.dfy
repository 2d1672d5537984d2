/** Renaming a group, and moving it under another: what becomes of every chain, and when the result is still a
    forest (internal/devices/config.go, internal/devices/validate.go). */
module GroupMoves {
  import opened Wrappers
  import opened Ordering
  import opened Strings
  import opened Groups
  import opened GroupEdits

  // ----- renaming -----

  function Relabel(name: string, from: string, into: string): string { if name == from then into else name }

  function RelabelGroup(g: Group, from: string, into: string): Group {
    Group(Relabel(g.name, from, into), Relabel(g.parent, from, into))
  }

  function RelabelAll(s: seq<string>, from: string, into: string): seq<string> {
    seq(|s|, i requires 0 <= i < |s| => Relabel(s[i], from, into))
  }

  lemma RenamedAt(gs: seq<Group>, from: string, into: string)
    requires DistinctBy(gs, NameOf) && Find(gs, from).Some?
    ensures |GroupsRenamed(gs, from, into)| == |gs|
    ensures forall k :: 0 <= k < |gs| ==> GroupsRenamed(gs, from, into)[k] == RelabelGroup(gs[k], from, into)
  {
    var i := IndexOf(gs, from);
    forall k | 0 <= k < |gs| && k != i
      ensures gs[k].name != from
    {
      assert NameOf(gs[k]) != NameOf(gs[i]);
    }
  }

  lemma RenamedDistinct(gs: seq<Group>, from: string, into: string)
    requires DistinctBy(gs, NameOf) && Find(gs, from).Some? && Find(gs, into).None?
    ensures DistinctBy(GroupsRenamed(gs, from, into), NameOf)
  {
    RenamedAt(gs, from, into);
    var hs := GroupsRenamed(gs, from, into);
    hide GroupsRenamed, Find;
    forall j, k | 0 <= j < k < |hs|
      ensures NameOf(hs[j]) != NameOf(hs[k])
    {
      assert NameOf(gs[j]) != NameOf(gs[k]);
      assert gs[j] in gs && gs[k] in gs;
    }
  }

  lemma RenamedFinds(gs: seq<Group>, from: string, into: string, m: string)
    requires DistinctBy(gs, NameOf) && Find(gs, from).Some? && Find(gs, into).None? && m != into
    ensures Find(GroupsRenamed(gs, from, into), Relabel(m, from, into)) ==
            if Find(gs, m).None? then None else Some(RelabelGroup(Find(gs, m).value, from, into))
  {
    RenamedAt(gs, from, into);
    RenamedDistinct(gs, from, into);
    var hs := GroupsRenamed(gs, from, into);
    hide GroupsRenamed;
    if Find(gs, m).Some? {
      var k := IndexOf(gs, m);
      assert hs[k] in hs;
      FindDistinct(hs, hs[k]);
    } else {
      forall k | 0 <= k < |hs|
        ensures hs[k].name != Relabel(m, from, into)
      {
        assert gs[k] in gs;
      }
    }
  }

  /** The rename keeps names apart up to case exactly when no other group is called the new name in another case. */
  lemma RenamedFolds(gs: seq<Group>, from: string, into: string)
    requires DistinctBy(gs, FoldOf) && Find(gs, from).Some?
    ensures DistinctBy(GroupsRenamed(gs, from, into), FoldOf) <==>
            forall g :: g in gs && g.name != from ==> Lower(g.name) != Lower(into)
  {
    FoldsApart(gs);
    RenamedAt(gs, from, into);
    var hs := GroupsRenamed(gs, from, into);
    var i := IndexOf(gs, from);
    hide GroupsRenamed, Find, Lower;
    forall k | 0 <= k < |gs| && k != i
      ensures gs[k].name != from
    {
      assert NameOf(gs[k]) != NameOf(gs[i]);
    }
    if forall g :: g in gs && g.name != from ==> Lower(g.name) != Lower(into) {
      forall j, k | 0 <= j < k < |hs|
        ensures FoldOf(hs[j]) != FoldOf(hs[k])
      {
        assert FoldOf(gs[j]) != FoldOf(gs[k]);
        assert gs[j] in gs && gs[k] in gs;
      }
    }
    if DistinctBy(hs, FoldOf) {
      forall g | g in gs && g.name != from
        ensures Lower(g.name) != Lower(into)
      {
        var k :| 0 <= k < |gs| && gs[k] == g;
        assert FoldOf(hs[k]) == Lower(g.name) && FoldOf(hs[i]) == Lower(into);
        assert k < i || i < k;
      }
    }
  }

  lemma RenamedClean(c: Intent, from: string, into: string)
    requires Clean(c) && DistinctBy(c.groups, NameOf) && Find(c.groups, from).Some? && Trim(into) == into
    ensures Clean(Intent(Rehome(c.devices, from, into), GroupsRenamed(c.groups, from, into)))
  {
    RenamedAt(c.groups, from, into);
    var hs, ds := GroupsRenamed(c.groups, from, into), Rehome(c.devices, from, into);
    hide GroupsRenamed;
    forall h | h in hs
      ensures Trim(h.name) == h.name && Trim(h.parent) == h.parent
    {
      var k :| 0 <= k < |hs| && hs[k] == h;
      assert c.groups[k] in c.groups;
    }
    forall d | d in ds
      ensures Trim(d.group) == d.group
    {
      var k :| 0 <= k < |ds| && ds[k] == d;
      assert c.devices[k] in c.devices;
    }
  }

  /** What a caller of `RenameGroup` checks first: the group is there and the new name is trimmed, not empty and
      not taken. */
  ghost predicate Renames(c: Intent, from: string, into: string) {
    Canonical(c) && Valid(c) && Find(c.groups, from).Some? && Find(c.groups, into).None? && into != "" && Trim(into) == into
  }

  lemma RenamedNormal(c: Intent, from: string, into: string)
    requires Renames(c, from, into)
    ensures Canonical(Renamed(c, from, into))
    ensures Renamed(c, from, into).devices == Rehome(c.devices, from, into)
    ensures DistinctBy(Renamed(c, from, into).groups, NameOf)
    ensures DistinctBy(Renamed(c, from, into).groups, FoldOf) <==>
            forall g :: g in c.groups && g.name != from ==> Lower(g.name) != Lower(into)
    ensures forall h :: h in Renamed(c, from, into).groups <==> h in GroupsRenamed(c.groups, from, into)
  {
    var raw := Intent(Rehome(c.devices, from, into), GroupsRenamed(c.groups, from, into));
    FoldsApart(c.groups);
    RenamedClean(c, from, into);
    RehomeSorted(c.devices, from, into);
    RenamedDistinct(c.groups, from, into);
    RenamedFolds(c.groups, from, into);
    NormalOfClean(raw);
    SortByDistinct(raw.groups, NameOf);
    hide Find, Clean, Canonical, Normal, GroupsRenamed, DistinctBy, Rehome;
    NormalOfEdit(raw);
  }

  lemma RenamedUp(c: Intent, from: string, into: string, m: string)
    requires Renames(c, from, into) && m != into
    ensures var hs := Renamed(c, from, into).groups;
            && (Find(hs, Relabel(m, from, into)).Some? <==> Find(c.groups, m).Some?)
            && Up(hs, Relabel(m, from, into)) == RelabelUp(Up(c.groups, m), from, into)
  {
    var raw := Intent(Rehome(c.devices, from, into), GroupsRenamed(c.groups, from, into));
    FoldsApart(c.groups);
    RenamedClean(c, from, into);
    RehomeSorted(c.devices, from, into);
    RenamedDistinct(c.groups, from, into);
    RenamedFinds(c.groups, from, into, m);
    assert from != "" by { assert NameOk(Find(c.groups, from).value.name); }
    hide Clean, Canonical, Normal, GroupsRenamed, DistinctBy, Rehome, Valid;
    NormalOfEdit(raw);
  }

  function RelabelUp(up: Option<string>, from: string, into: string): Option<string> {
    if up.None? then None else Some(Relabel(up.value, from, into))
  }

  lemma {:induction false} RelabelledPath(gs: seq<Group>, hs: seq<Group>, from: string, into: string, name: string, chain: seq<string>)
    requires Path(gs, name, chain) && name != into && into !in chain
    requires forall m :: m != into ==> Up(hs, Relabel(m, from, into)) == RelabelUp(Up(gs, m), from, into)
    ensures Path(hs, Relabel(name, from, into), RelabelAll(chain, from, into))
    decreases |chain|
  {
    hide Up, Relabel;
    assert Up(hs, Relabel(name, from, into)) == RelabelUp(Up(gs, name), from, into);
    if chain != [] {
      RelabelledPath(gs, hs, from, into, chain[0], chain[1..]);
      assert RelabelAll(chain, from, into)[1..] == RelabelAll(chain[1..], from, into);
    }
  }

  lemma RenameRelabels(c: Intent, from: string, into: string, name: string)
    requires Renames(c, from, into) && Find(c.groups, name).Some?
    ensures Above(Renamed(c, from, into).groups, Relabel(name, from, into)) ==
            RelabelAll(Above(c.groups, name), from, into)
    ensures Nests(Renamed(c, from, into).groups, Relabel(name, from, into))
  {
    var gs, hs := c.groups, Renamed(c, from, into).groups;
    var chain := Above(gs, name);
    ForestClimbs(gs, name);
    assert into !in chain && name != into;
    hide Renamed, Above, Renames, Find, Up;
    forall m | m != into
      ensures Up(hs, Relabel(m, from, into)) == RelabelUp(Up(gs, m), from, into)
    {
      RenamedUp(c, from, into, m);
    }
    RelabelledPath(gs, hs, from, into, name, chain);
    PathIsAbove(hs, Relabel(name, from, into), RelabelAll(chain, from, into));
  }

  /** After a rename the chain above every group and of every device is the old one with the one name replaced; and
      the result can be stored exactly when the new name may be used and no other group has it in another case. */
  lemma RenameKeepsForest(c: Intent, from: string, into: string)
    requires Renames(c, from, into)
    ensures Canonical(Renamed(c, from, into))
    ensures Valid(Renamed(c, from, into)) <==>
            NameOk(into) && forall g :: g in c.groups && g.name != from ==> Lower(g.name) != Lower(into)
    ensures forall m :: Find(c.groups, m).Some? ==>
              && Find(Renamed(c, from, into).groups, Relabel(m, from, into)).Some?
              && Above(Renamed(c, from, into).groups, Relabel(m, from, into)) ==
                 RelabelAll(Above(c.groups, m), from, into)
    ensures |Renamed(c, from, into).devices| == |c.devices|
    ensures forall k :: 0 <= k < |c.devices| ==>
              && Renamed(c, from, into).devices[k].mac == c.devices[k].mac
              && Ladder(Renamed(c, from, into), Renamed(c, from, into).devices[k]) ==
                 RelabelAll(Ladder(c, c.devices[k]), from, into)
  {
    RenamedNormal(c, from, into);
    var hs, ds := Renamed(c, from, into).groups, Renamed(c, from, into).devices;
    hide Renamed, Canonical, Find, Nests;
    forall m | Find(c.groups, m).Some?
      ensures Find(hs, Relabel(m, from, into)).Some?
      ensures Above(hs, Relabel(m, from, into)) == RelabelAll(Above(c.groups, m), from, into)
    {
      RenamedUp(c, from, into, m);
      RenameRelabels(c, from, into, m);
    }
    assert ds == Rehome(c.devices, from, into);
    forall k | 0 <= k < |c.devices|
      ensures ds[k].mac == c.devices[k].mac
      ensures Ladder(Renamed(c, from, into), ds[k]) == RelabelAll(Ladder(c, c.devices[k]), from, into)
      ensures ds[k].group != "" ==> Find(hs, ds[k].group).Some?
    {
      assert c.devices[k] in c.devices;
      RenamedLadder(c, from, into, c.devices[k]);
    }
    RenamedForest(c, from, into);
  }

  lemma RenamedLadder(c: Intent, from: string, into: string, d: Device)
    requires Renames(c, from, into)
    requires d.group == "" || Find(c.groups, d.group).Some?
    ensures var e := if d.group == from then d.(group := into) else d;
            && Ladder(Renamed(c, from, into), e) == RelabelAll(Ladder(c, d), from, into)
            && (e.group != "" ==> Find(Renamed(c, from, into).groups, e.group).Some?)
  {
    RenamesNames(c, from, into);
    RelabelCons("", [], from, into);
    hide Renamed, Renames, Find, Above, Nests, RelabelAll;
    if d.group != "" {
      RenameRelabels(c, from, into, d.group);
      RenamedUp(c, from, into, d.group);
      RelabelCons(d.group, Above(c.groups, d.group), from, into);
    }
  }

  lemma RelabelCons(name: string, chain: seq<string>, from: string, into: string)
    ensures RelabelAll([name] + chain, from, into) == [Relabel(name, from, into)] + RelabelAll(chain, from, into)
    ensures RelabelAll([], from, into) == []
  {}

  lemma RenamesNames(c: Intent, from: string, into: string)
    requires Renames(c, from, into)
    ensures from != "" && into != "" && forall m :: Find(c.groups, m).Some? ==> m != into
  {
    assert NameOk(Find(c.groups, from).value.name);
  }

  /** Every renamed group still hangs below the top. */
  lemma RenamedHangs(c: Intent, from: string, into: string, h: Group)
    requires Renames(c, from, into) && h in GroupsRenamed(c.groups, from, into)
    ensures h.parent != "" ==> Find(Renamed(c, from, into).groups, h.parent).Some?
    ensures Nests(Renamed(c, from, into).groups, h.name)
  {
    var gs := c.groups;
    FoldsApart(gs);
    RenamedAt(gs, from, into);
    var raw := GroupsRenamed(gs, from, into);
    var k :| 0 <= k < |raw| && raw[k] == h;
    var g := gs[k];
    assert g in gs;
    assert ParentKnown(gs, g);
    assert Find(gs, g.name).Some? && (g.parent != "" ==> Find(gs, g.parent).Some?);
    RenamesNames(c, from, into);
    hide Renames, Renamed, Find, Nests, GroupsRenamed, FoldOf;
    RenameRelabels(c, from, into, g.name);
    if g.parent != "" { RenamedUp(c, from, into, g.parent); }
  }

  lemma RenamedNames(gs: seq<Group>, from: string, into: string)
    requires DistinctBy(gs, NameOf) && Find(gs, from).Some? && forall g :: g in gs ==> NameOk(g.name)
    ensures (forall h :: h in GroupsRenamed(gs, from, into) ==> NameOk(h.name)) <==> NameOk(into)
  {
    RenamedAt(gs, from, into);
    var raw := GroupsRenamed(gs, from, into);
    var i := IndexOf(gs, from);
    assert gs[i].name == from && raw[i] in raw && raw[i].name == into;
    hide NameOk, GroupsRenamed, Find, DistinctBy;
    forall h | h in raw
      ensures h.name == into || exists g :: g in gs && g.name == h.name
    {
      var k :| 0 <= k < |raw| && raw[k] == h;
      assert gs[k] in gs;
    }
  }

  lemma RenamedForest(c: Intent, from: string, into: string)
    requires Renames(c, from, into)
    ensures Forest(Renamed(c, from, into).groups) <==>
            NameOk(into) && forall g :: g in c.groups && g.name != from ==> Lower(g.name) != Lower(into)
  {
    RenamedNormal(c, from, into);
    var gs, hs := c.groups, Renamed(c, from, into).groups;
    FoldsApart(gs);
    RenamedNames(gs, from, into);
    var raw := GroupsRenamed(gs, from, into);
    hide Renamed, Renames, Find, Nests, GroupsRenamed, DistinctBy, Lower, NameOk;
    forall h | h in hs
      ensures h.parent != "" ==> Find(hs, h.parent).Some?
      ensures Nests(hs, h.name)
    {
      RenamedHangs(c, from, into, h);
    }
  }

  // ----- moving a group under another -----

  /** `UpsertGroup` on a group there is: its parent is set and everything else stays. */
  function Placed(gs: seq<Group>, x: string, parent: string): seq<Group>
    requires Find(gs, x).Some?
  {
    gs[IndexOf(gs, x) := Group(x, parent)]
  }

  lemma PlacedFinds(gs: seq<Group>, x: string, parent: string, m: string)
    requires DistinctBy(gs, FoldOf) && Find(gs, x).Some?
    ensures Find(Placed(gs, x, parent), m) == if m == x then Some(Group(x, parent)) else Find(gs, m)
    ensures DistinctBy(Placed(gs, x, parent), FoldOf)
  {
    var hs := Placed(gs, x, parent);
    assert forall k :: 0 <= k < |gs| ==> hs[k].name == gs[k].name;
    forall j, k | 0 <= j < k < |hs|
      ensures FoldOf(hs[j]) != FoldOf(hs[k])
    {
      assert FoldOf(gs[j]) != FoldOf(gs[k]);
    }
    FoldsApart(hs);
    hide Lower, FoldOf;
    if m == x {
      assert hs[IndexOf(gs, x)] in hs;
      FindDistinct(hs, Group(x, parent));
    } else if Find(gs, m).Some? {
      assert hs[IndexOf(gs, m)] == gs[IndexOf(gs, m)] && hs[IndexOf(gs, m)] in hs;
      FindDistinct(hs, gs[IndexOf(gs, m)]);
    } else {
      forall k | 0 <= k < |hs|
        ensures hs[k].name != m
      {
        assert gs[k] in gs;
      }
    }
  }

  /** What stands above a group that is put under `parent`. */
  function Over(gs: seq<Group>, parent: string): seq<string> {
    if parent == "" then [] else [parent] + Above(gs, parent)
  }

  /** The chain with everything after `x` replaced. */
  function Regraft(chain: seq<string>, x: string, over: seq<string>): seq<string> {
    if chain == [] then [] else if chain[0] == x then [x] + over else [chain[0]] + Regraft(chain[1..], x, over)
  }

  ghost predicate UpsAgree(gs: seq<Group>, hs: seq<Group>, x: string, parent: string) {
    && (forall m :: m != x ==> Up(hs, m) == Up(gs, m))
    && Up(hs, x) == if parent == "" then None else Some(parent)
  }

  lemma PlacedUps(gs: seq<Group>, x: string, parent: string)
    requires DistinctBy(gs, FoldOf) && Find(gs, x).Some?
    ensures UpsAgree(gs, Placed(gs, x, parent), x, parent)
  {
    forall m
      ensures Up(Placed(gs, x, parent), m) == if m != x then Up(gs, m) else if parent == "" then None else Some(parent)
    {
      PlacedFinds(gs, x, parent, m);
    }
  }

  lemma {:induction false} RegraftedPath(gs: seq<Group>, hs: seq<Group>, x: string, parent: string, over: seq<string>, name: string, chain: seq<string>)
    requires Path(gs, name, chain) && name != x
    requires UpsAgree(gs, hs, x, parent) && Path(hs, x, over)
    ensures Path(hs, name, Regraft(chain, x, over))
    decreases |chain|
  {
    hide Up;
    assert Up(hs, name) == Up(gs, name);
    if chain != [] {
      if chain[0] == x {
        assert ([x] + over)[1..] == over;
      } else {
        RegraftedPath(gs, hs, x, parent, over, chain[0], chain[1..]);
        assert ([chain[0]] + Regraft(chain[1..], x, over))[1..] == Regraft(chain[1..], x, over);
      }
    }
  }

  lemma {:induction false} WalkBelow(gs: seq<Group>, hs: seq<Group>, x: string, parent: string, chain: seq<string>, k: nat)
    requires parent != "" && UpsAgree(gs, hs, x, parent) && Path(gs, parent, chain)
    requires k <= |chain| && forall j :: 0 <= j < k ==> ([parent] + chain)[j] != x
    ensures Walk(hs, x, k + 1) == Some(([parent] + chain)[k])
  {
    hide Up;
    var all := [parent] + chain;
    if k == 0 {
      assert Walk(hs, x, 0) == Some(x);
    } else {
      WalkBelow(gs, hs, x, parent, chain, k - 1);
      PathWalk(gs, parent, chain, k);
      PathWalk(gs, parent, chain, k - 1);
      assert all[k - 1] != x;
      assert Up(hs, all[k - 1]) == Up(gs, all[k - 1]);
    }
  }

  lemma {:induction false} FirstAt(s: seq<string>, x: string) returns (i: nat)
    requires x in s
    ensures i < |s| && s[i] == x && forall j :: 0 <= j < i ==> s[j] != x
  {
    if s[0] == x { i := 0; } else { i := FirstAt(s[1..], x); i := i + 1; }
  }

  /** A move puts a group inside itself, and `inCycle` then says so, exactly when the new parent is the group or a
      group below it. */
  lemma MoveInsideItself(gs: seq<Group>, x: string, parent: string)
    requires Forest(gs) && Find(gs, x).Some? && Find(gs, parent).Some?
    ensures Revisits(Placed(gs, x, parent), x) <==> parent == x || x in Above(gs, parent)
  {
    var hs := Placed(gs, x, parent);
    var chain := Above(gs, parent);
    ForestClimbs(gs, parent);
    PlacedUps(gs, x, parent);
    assert parent != "" by { assert NameOk(Find(gs, parent).value.name); }
    hide Placed, Above, Find, Up, Forest;
    if x in [parent] + chain {
      var i := FirstAt([parent] + chain, x);
      WalkBelow(gs, hs, x, parent, chain, i);
      assert Walk(hs, x, 0) == Some(x) == Walk(hs, x, i + 1);
    } else {
      PathAgrees(gs, hs, parent, chain);
      assert ([parent] + chain)[1..] == chain;
      assert Path(hs, x, [parent] + chain);
      PathNeverRevisits(hs, x, [parent] + chain);
    }
  }

  lemma MovedOver(gs: seq<Group>, x: string, parent: string)
    requires Forest(gs) && Find(gs, x).Some? && Outside(gs, x, parent)
    ensures Path(Placed(gs, x, parent), x, Over(gs, parent))
  {
    var hs := Placed(gs, x, parent);
    PlacedUps(gs, x, parent);
    if parent != "" {
      var chain := Above(gs, parent);
      ForestClimbs(gs, parent);
      hide Placed, Above, Find, Up, Forest;
      PathAgrees(gs, hs, parent, chain);
      assert ([parent] + chain)[1..] == chain;
    }
  }

  /** A move that does not put the group inside itself gives it the new parent's chain, hands that on to everything
      below the group, and leaves every other chain alone. */
  lemma MoveRegrafts(gs: seq<Group>, x: string, parent: string, name: string)
    requires Forest(gs) && Find(gs, x).Some? && Find(gs, name).Some? && Outside(gs, x, parent)
    ensures var chain := if name == x then Over(gs, parent) else Regraft(Above(gs, name), x, Over(gs, parent));
            Path(Placed(gs, x, parent), name, chain) && Above(Placed(gs, x, parent), name) == chain
  {
    var hs := Placed(gs, x, parent);
    var over := Over(gs, parent);
    MovedOver(gs, x, parent);
    PlacedUps(gs, x, parent);
    ForestClimbs(gs, name);
    hide Placed, Above, Find, Over, Forest, UpsAgree, Outside;
    if name == x {
      PathIsAbove(hs, x, over);
    } else {
      RegraftedPath(gs, hs, x, parent, over, name, Above(gs, name));
      PathIsAbove(hs, name, Regraft(Above(gs, name), x, over));
    }
  }

  ghost predicate Outside(gs: seq<Group>, x: string, parent: string) {
    parent == "" || (Find(gs, parent).Some? && parent != x && x !in Above(gs, parent))
  }

  lemma PlacedForestNames(gs: seq<Group>, x: string, parent: string)
    requires Forest(gs) && Find(gs, x).Some?
    ensures forall h :: h in Placed(gs, x, parent) ==> NameOk(h.name) && Find(gs, h.name).Some?
    ensures forall h :: h in Placed(gs, x, parent) ==> h.parent == parent || h in gs
    ensures Group(x, parent) in Placed(gs, x, parent)
    ensures forall g :: g in gs ==> exists h :: h in Placed(gs, x, parent) && h.name == g.name
  {
    var hs := Placed(gs, x, parent);
    assert hs[IndexOf(gs, x)] == Group(x, parent);
    forall h | h in hs
      ensures NameOk(h.name) && Find(gs, h.name).Some? && (h.parent == parent || h in gs)
    {
      var k :| 0 <= k < |hs| && hs[k] == h;
      assert gs[k] in gs && gs[k].name == h.name;
    }
    forall g | g in gs
      ensures exists h :: h in hs && h.name == g.name
    {
      var k :| 0 <= k < |gs| && gs[k] == g;
      assert hs[k] in hs && hs[k].name == g.name;
    }
  }

  lemma MovedNests(gs: seq<Group>, x: string, parent: string, name: string)
    requires Forest(gs) && Find(gs, x).Some? && Find(gs, name).Some? && Outside(gs, x, parent)
    ensures var chain := if name == x then Over(gs, parent) else Regraft(Above(gs, name), x, Over(gs, parent));
            Nests(Placed(gs, x, parent), name) <==> |chain| + 1 <= MAX_DEPTH
    ensures name != x && x !in Above(gs, name) ==> Nests(Placed(gs, x, parent), name)
  {
    hide Placed, Above, Over, Find, Forest, Regraft, Outside, Path, Nests;
    MoveRegrafts(gs, x, parent, name);
    NestsAbove(Placed(gs, x, parent), name);
    ForestClimbs(gs, name);
    if x !in Above(gs, name) { RegraftKeeps(Above(gs, name), x, Over(gs, parent)); }
  }

  lemma {:induction false} RegraftKeeps(chain: seq<string>, x: string, over: seq<string>)
    requires x !in chain
    ensures Regraft(chain, x, over) == chain
  {
    if chain != [] {
      RegraftKeeps(chain[1..], x, over);
      assert chain == [chain[0]] + chain[1..];
    }
  }

  lemma MovedInsideFails(gs: seq<Group>, x: string, parent: string)
    requires Forest(gs) && Find(gs, x).Some?
    requires Forest(Placed(gs, x, parent))
    ensures Outside(gs, x, parent)
  {
    var hs := Placed(gs, x, parent);
    PlacedForestNames(gs, x, parent);
    PlacedFinds(gs, x, parent, parent);
    if parent != "" {
      assert ParentKnown(hs, Group(x, parent)) && Nests(hs, Group(x, parent).name);
      assert Find(gs, parent).Some?;
      hide Placed, Nests, Above, Find, Forest, Path, Revisits;
      NestsAbove(hs, x);
      PathNeverRevisits(hs, x, Above(hs, x));
      MoveInsideItself(gs, x, parent);
    }
  }

  /** The group may be put under `parent`: it is there and not inside the group, and nothing gets too deep. */
  ghost predicate MayMove(gs: seq<Group>, x: string, parent: string) {
    && (parent == "" || (Find(gs, parent).Some? && parent != x && x !in Above(gs, parent)))
    && |Over(gs, parent)| + 1 <= MAX_DEPTH
    && forall g :: g in gs && x in Above(gs, g.name) ==>
         |Regraft(Above(gs, g.name), x, Over(gs, parent))| + 1 <= MAX_DEPTH
  }

  /** When a move can be stored: the new parent exists and is neither the group nor inside it, and neither the group
      nor anything in it ends up deeper than the limit. */
  lemma MoveAllowed(gs: seq<Group>, x: string, parent: string)
    requires Forest(gs) && Find(gs, x).Some?
    ensures Forest(Placed(gs, x, parent)) <==> MayMove(gs, x, parent)
  {
    var hs := Placed(gs, x, parent);
    PlacedForestNames(gs, x, parent);
    PlacedFinds(gs, x, parent, x);
    if Forest(hs) {
      MovedInsideFails(gs, x, parent);
    }
    if Outside(gs, x, parent) {
      hide Placed, Over, Nests, Above, FoldOf, Regraft;
      ForestDepths(gs, x, parent);
    }
  }

  ghost predicate ShortEnough(gs: seq<Group>, x: string, over: seq<string>) {
    && |over| + 1 <= MAX_DEPTH
    && forall g :: g in gs && x in Above(gs, g.name) ==> |Regraft(Above(gs, g.name), x, over)| + 1 <= MAX_DEPTH
  }

  lemma NestsIsShort(gs: seq<Group>, x: string, parent: string)
    requires Forest(gs) && Find(gs, x).Some? && Outside(gs, x, parent)
    ensures (forall h :: h in Placed(gs, x, parent) ==> Nests(Placed(gs, x, parent), h.name)) <==>
            ShortEnough(gs, x, Over(gs, parent))
  {
    var hs := Placed(gs, x, parent);
    PlacedForestNames(gs, x, parent);
    NotAboveItself(gs, x);
    assert forall g :: g in gs ==> Find(gs, g.name).Some?;
    hide Placed, Over, Nests, Above, Regraft, Outside, Find, Forest, NameOk;
    MovedNests(gs, x, parent, x);
    if forall h :: h in hs ==> Nests(hs, h.name) {
      assert Nests(hs, Group(x, parent).name);
      forall g | g in gs && x in Above(gs, g.name)
        ensures |Regraft(Above(gs, g.name), x, Over(gs, parent))| + 1 <= MAX_DEPTH
      {
        MovedNests(gs, x, parent, g.name);
        var h :| h in hs && h.name == g.name;
        assert Nests(hs, h.name);
      }
    }
    if ShortEnough(gs, x, Over(gs, parent)) {
      forall h | h in hs
        ensures Nests(hs, h.name)
      {
        MovedNests(gs, x, parent, h.name);
        FoundIn(gs, h.name);
      }
    }
  }

  lemma FoundIn(gs: seq<Group>, name: string)
    requires Find(gs, name).Some?
    ensures exists g :: g in gs && g.name == name
  {}

  lemma ForestDepths(gs: seq<Group>, x: string, parent: string)
    requires Forest(gs) && Find(gs, x).Some? && Outside(gs, x, parent)
    ensures Forest(Placed(gs, x, parent)) <==> ShortEnough(gs, x, Over(gs, parent))
  {
    var hs := Placed(gs, x, parent);
    PlacedForestNames(gs, x, parent);
    PlacedFinds(gs, x, parent, x);
    NestsIsShort(gs, x, parent);
    forall h | h in hs
      ensures ParentKnown(hs, h)
    {
      PlacedKnown(gs, x, parent, h);
    }
    hide Placed, Over, Nests, Above, FoldOf, ShortEnough, Find, NameOk, ParentKnown, Outside;
  }

  lemma PlacedKnown(gs: seq<Group>, x: string, parent: string, h: Group)
    requires Forest(gs) && Find(gs, x).Some? && Outside(gs, x, parent) && h in Placed(gs, x, parent)
    ensures ParentKnown(Placed(gs, x, parent), h)
  {
    PlacedForestNames(gs, x, parent);
    assert h.parent == parent || ParentKnown(gs, h);
    hide Placed;
    PlacedFinds(gs, x, parent, h.parent);
  }

  lemma NotAboveItself(gs: seq<Group>, x: string)
    requires Forest(gs) && Find(gs, x).Some?
    ensures x !in Above(gs, x)
  {
    ForestClimbs(gs, x);
    PathNoRepeat(gs, x, Above(gs, x));
  }
}
