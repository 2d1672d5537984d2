/** The stored device groups: validation, rename, removal and moves, and the requests that make them
    (internal/devices/config.go, internal/devices/validate.go, internal/devices/http.go). */
module GroupEdits {
  import opened Wrappers
  import opened Ordering
  import opened Strings
  import opened Groups

  const MAX_DEPTH := 4
  const MAX_NAME := 32

  /** A device, as far as groups are concerned; its MAC is in the form `Normalize` gives it. */
  datatype Device = Device(mac: string, group: string)

  datatype Intent = Intent(devices: seq<Device>, groups: seq<Group>)

  function MacOf(d: Device): string { d.mac }

  // ----- canonical form -----

  function TrimGroups(gs: seq<Group>): seq<Group> {
    seq(|gs|, i requires 0 <= i < |gs| => Group(Trim(gs[i].name), Trim(gs[i].parent)))
  }

  function TrimDevices(ds: seq<Device>): seq<Device> {
    seq(|ds|, i requires 0 <= i < |ds| => ds[i].(group := Trim(ds[i].group)))
  }

  function Normal(c: Intent): Intent {
    Intent(SortBy(TrimDevices(c.devices), MacOf), SortBy(TrimGroups(c.groups), NameOf))
  }

  ghost predicate Clean(c: Intent) {
    && (forall g :: g in c.groups ==> Trim(g.name) == g.name && Trim(g.parent) == g.parent)
    && (forall d :: d in c.devices ==> Trim(d.group) == d.group)
  }

  ghost predicate Canonical(c: Intent) {
    Clean(c) && Sorted(c.devices, MacOf) && Sorted(c.groups, NameOf)
  }

  lemma NormalOfClean(c: Intent)
    requires Clean(c)
    ensures Normal(c) == Intent(SortBy(c.devices, MacOf), SortBy(c.groups, NameOf))
  {
    assert TrimGroups(c.groups) == c.groups;
    assert TrimDevices(c.devices) == c.devices;
  }

  lemma CleanSorts(c: Intent)
    requires Clean(c)
    ensures Canonical(Normal(c))
  {
    NormalOfClean(c);
    SortBySorts(c.devices, MacOf);
    SortBySorts(c.groups, NameOf);
    SortByMembers(c.devices, MacOf);
    SortByMembers(c.groups, NameOf);
  }

  lemma NormalKeeps(c: Intent)
    ensures multiset(Normal(c).groups) == multiset(seq(|c.groups|, i requires 0 <= i < |c.groups| => Group(Trim(c.groups[i].name), Trim(c.groups[i].parent))))
    ensures multiset(Normal(c).devices) == multiset(seq(|c.devices|, i requires 0 <= i < |c.devices| => Device(c.devices[i].mac, Trim(c.devices[i].group))))
  {
    SortBySorts(TrimGroups(c.groups), NameOf);
    SortBySorts(TrimDevices(c.devices), MacOf);
    hide SortBy, Trim;
    assert TrimGroups(c.groups) == seq(|c.groups|, i requires 0 <= i < |c.groups| => Group(Trim(c.groups[i].name), Trim(c.groups[i].parent)));
    assert TrimDevices(c.devices) == seq(|c.devices|, i requires 0 <= i < |c.devices| => Device(c.devices[i].mac, Trim(c.devices[i].group)));
  }

  /** `Normalize` gives a canonical form and leaves a canonical form alone. */
  lemma NormalIsCanonical(c: Intent)
    ensures Canonical(Normal(c))
    ensures Normal(c) == c <==> Canonical(c)
    ensures multiset(Normal(c).groups) == multiset(seq(|c.groups|, i requires 0 <= i < |c.groups| => Group(Trim(c.groups[i].name), Trim(c.groups[i].parent))))
    ensures multiset(Normal(c).devices) == multiset(seq(|c.devices|, i requires 0 <= i < |c.devices| => Device(c.devices[i].mac, Trim(c.devices[i].group))))
  {
    NormalKeeps(c);
    var t := Intent(TrimDevices(c.devices), TrimGroups(c.groups));
    forall g | g in t.groups
      ensures Trim(g.name) == g.name && Trim(g.parent) == g.parent
    {
      var i :| 0 <= i < |t.groups| && t.groups[i] == g;
      TrimTrimmed(c.groups[i].name);
      TrimTrimmed(c.groups[i].parent);
    }
    forall d | d in t.devices
      ensures Trim(d.group) == d.group
    {
      var i :| 0 <= i < |t.devices| && t.devices[i] == d;
      TrimTrimmed(c.devices[i].group);
    }
    CleanSorts(t);
    NormalOfClean(t);
    if Canonical(c) {
      NormalOfClean(c);
      SortedFixed(c.devices, MacOf);
      SortedFixed(c.groups, NameOf);
    }
  }

  // ----- what a stored configuration promises -----

  predicate Control(ch: char) { ch < ' ' || 0x7F <= ch as int <= 0x9F }

  predicate NameOk(name: string) { name != "" && |name| <= MAX_NAME && forall k :: 0 <= k < |name| ==> !Control(name[k]) }

  function LowerChar(ch: char): char {
    if 'A' <= ch <= 'Z' || (0xC0 <= ch as int <= 0xDE && ch as int != 0xD7) then (ch as int + 32) as char else ch
  }

  /** Lower case, on the characters up to U+00FF. */
  function Lower(s: string): string { seq(|s|, i requires 0 <= i < |s| => LowerChar(s[i])) }

  function FoldOf(g: Group): string { Lower(g.name) }

  /** A usable name has 1 to 32 characters, none of them a control character. */
  lemma NameOkMeans(name: string)
    ensures NameOk(name) <==> 1 <= |name| <= 32 && forall ch <- name :: !(0 <= ch as int <= 31 || 127 <= ch as int <= 159)
  {
    if NameOk(name) {
      forall ch | ch in name
        ensures !(0 <= ch as int <= 31 || 127 <= ch as int <= 159)
      {
        var k :| 0 <= k < |name| && name[k] == ch;
      }
    } else if 1 <= |name| <= 32 {
      var k :| 0 <= k < |name| && Control(name[k]);
      assert name[k] in name;
    }
  }

  /** Case: each capital of the two alphabets has its small letter, and everything else stays. */
  lemma LowerMeans(k: nat, ch: char)
    ensures k < 26 ==> LowerChar("ABCDEFGHIJKLMNOPQRSTUVWXYZ"[k]) == "abcdefghijklmnopqrstuvwxyz"[k]
    ensures 0xC0 <= ch as int <= 0xDE && ch as int != 0xD7 ==> LowerChar(ch) as int == ch as int + 0x20
    ensures !('A' <= ch <= 'Z') && !(0xC0 <= ch as int <= 0xDE && ch as int != 0xD7) ==> LowerChar(ch) == ch
    ensures LowerChar(LowerChar(ch)) == LowerChar(ch)
  {}

  /** The whole way up from a group is short enough. */
  ghost predicate Nests(gs: seq<Group>, name: string) {
    exists chain :: Path(gs, name, chain) && |chain| + 1 <= MAX_DEPTH
  }

  predicate ParentKnown(gs: seq<Group>, g: Group) {
    g.parent == "" || Find(gs, g.parent).Some?
  }

  ghost predicate Forest(gs: seq<Group>) {
    && (forall g :: g in gs ==> NameOk(g.name))
    && DistinctBy(gs, FoldOf)
    && (forall g {:trigger ParentKnown(gs, g)} :: g in gs ==> ParentKnown(gs, g))
    && (forall g {:trigger Nests(gs, g.name)} :: g in gs ==> Nests(gs, g.name))
  }

  ghost predicate Valid(c: Intent) {
    && Forest(c.groups)
    && forall d :: d in c.devices && d.group != "" ==> Find(c.groups, d.group).Some?
  }

  lemma FoldsApart(gs: seq<Group>)
    requires DistinctBy(gs, FoldOf)
    ensures DistinctBy(gs, NameOf)
  {
    forall i, j | 0 <= i < j < |gs|
      ensures NameOf(gs[i]) != NameOf(gs[j])
    {
      assert FoldOf(gs[i]) != FoldOf(gs[j]);
    }
  }

  /** The groups a device is in, innermost first. */
  function Ladder(c: Intent, d: Device): seq<string> {
    if d.group == "" then [] else [d.group] + Above(c.groups, d.group)
  }

  lemma NestsAbove(gs: seq<Group>, name: string)
    ensures Nests(gs, name) <==> Path(gs, name, Above(gs, name)) && |Above(gs, name)| + 1 <= MAX_DEPTH
  {
    if Nests(gs, name) {
      var chain :| Path(gs, name, chain) && |chain| + 1 <= MAX_DEPTH;
      PathIsAbove(gs, name, chain);
    }
  }

  /** In a forest every walk ends at the top, and everything on the way is a group. */
  lemma ForestClimbs(gs: seq<Group>, name: string)
    requires Forest(gs) && Find(gs, name).Some?
    ensures Path(gs, name, Above(gs, name)) && |Above(gs, name)| + 1 <= 4
    ensures forall m :: m in Above(gs, name) ==> Find(gs, m).Some?
  {
    assert Nests(gs, Find(gs, name).value.name);
    NestsAbove(gs, name);
    PathFound(gs, name, Above(gs, name));
  }

  lemma {:induction false} PathFound(gs: seq<Group>, name: string, c: seq<string>)
    requires Path(gs, name, c)
    requires forall g {:trigger ParentKnown(gs, g)} :: g in gs ==> ParentKnown(gs, g)
    ensures forall m :: m in c ==> Find(gs, m).Some?
    decreases |c|
  {
    if c != [] {
      assert ParentKnown(gs, Find(gs, name).value);
      PathFound(gs, c[0], c[1..]);
      assert c == [c[0]] + c[1..];
    }
  }

  lemma FindFirst(g: Group, gs: seq<Group>, m: string)
    ensures Find([g] + gs, m) == if g.name == m then Some(g) else Find(gs, m)
  {
    assert ([g] + gs)[1..] == gs;
  }

  lemma {:induction false} InsertFinds(g: Group, gs: seq<Group>, m: string)
    ensures Find(Insert(g, gs, NameOf), m) == if g.name == m then Some(g) else Find(gs, m)
  {
    hide Find, Leq;
    if gs == [] || Leq(NameOf(g), NameOf(gs[0])) {
      assert gs == [] ==> [g] == [g] + gs;
      FindFirst(g, gs, m);
    } else {
      LeqTotal(NameOf(g), NameOf(g));
      InsertFinds(g, gs[1..], m);
      FindFirst(gs[0], Insert(g, gs[1..], NameOf), m);
      FindFirst(gs[0], gs[1..], m);
      assert gs == [gs[0]] + gs[1..];
    }
  }

  lemma {:induction false} SortFinds(gs: seq<Group>, m: string)
    ensures Find(SortBy(gs, NameOf), m) == Find(gs, m)
  {
    hide Find;
    if gs != [] {
      SortFinds(gs[1..], m);
      InsertFinds(gs[0], SortBy(gs[1..], NameOf), m);
      FindFirst(gs[0], gs[1..], m);
      assert gs == [gs[0]] + gs[1..];
    }
  }

  /** Sorting the groups moves none of them in the tree, since the sort is stable. */
  lemma SortedFinds(gs: seq<Group>)
    ensures forall m :: Find(SortBy(gs, NameOf), m) == Find(gs, m)
    ensures forall m :: Up(SortBy(gs, NameOf), m) == Up(gs, m)
  {
    forall m
      ensures Find(SortBy(gs, NameOf), m) == Find(gs, m)
    {
      SortFinds(gs, m);
    }
  }

  // ----- the edits -----

  function Reparent(gs: seq<Group>, from: string, into: string): seq<Group> {
    seq(|gs|, i requires 0 <= i < |gs| => if gs[i].parent == from then gs[i].(parent := into) else gs[i])
  }

  function Rehome(ds: seq<Device>, from: string, into: string): seq<Device> {
    seq(|ds|, i requires 0 <= i < |ds| => if ds[i].group == from then ds[i].(group := into) else ds[i])
  }

  function GroupsRemoved(gs: seq<Group>, name: string): seq<Group>
    requires Find(gs, name).Some?
  {
    var i := IndexOf(gs, name);
    Reparent(gs[..i] + gs[i + 1..], name, gs[i].parent)
  }

  function Removed(c: Intent, name: string): Intent
    requires Find(c.groups, name).Some?
  {
    Normal(Intent(Rehome(c.devices, name, Find(c.groups, name).value.parent), GroupsRemoved(c.groups, name)))
  }

  function GroupsRenamed(gs: seq<Group>, from: string, into: string): seq<Group>
    requires Find(gs, from).Some?
  {
    var i := IndexOf(gs, from);
    Reparent(gs[i := gs[i].(name := into)], from, into)
  }

  function Renamed(c: Intent, from: string, into: string): Intent
    requires Find(c.groups, from).Some?
  {
    Normal(Intent(Rehome(c.devices, from, into), GroupsRenamed(c.groups, from, into)))
  }

  function Upserted(c: Intent, g: Group): Intent {
    var i := IndexOf(c.groups, g.name);
    if i < |c.groups| then c.(groups := c.groups[i := g]) else Normal(c.(groups := c.groups + [g]))
  }

  // ----- removal -----

  function Without(s: seq<string>, name: string): seq<string> {
    if s == [] then [] else (if s[0] == name then [] else [s[0]]) + Without(s[1..], name)
  }

  lemma {:induction false} WithoutKeeps(s: seq<string>, name: string)
    ensures |Without(s, name)| <= |s|
    ensures name !in s ==> Without(s, name) == s
  {
    if s != [] {
      WithoutKeeps(s[1..], name);
      assert s == [s[0]] + s[1..];
    }
  }

  function Raised(g: Group, x: string, parent: string): Group {
    if g.parent == x then g.(parent := parent) else g
  }

  /** Where the `k`-th remaining group stood. */
  function Before(i: nat, k: nat): nat { if k < i then k else k + 1 }

  lemma RemovedAt(gs: seq<Group>, x: string)
    requires Find(gs, x).Some?
    ensures var i := IndexOf(gs, x);
            && |GroupsRemoved(gs, x)| == |gs| - 1
            && forall k :: 0 <= k < |gs| - 1 ==> GroupsRemoved(gs, x)[k] == Raised(gs[Before(i, k)], x, gs[i].parent)
  {
  }

  lemma RemovedDistinct(gs: seq<Group>, x: string, key: Group -> string)
    requires DistinctBy(gs, key) && Find(gs, x).Some?
    requires forall g, p :: key(Raised(g, x, p)) == key(g)
    ensures DistinctBy(GroupsRemoved(gs, x), key)
  {
    hide GroupsRemoved, Raised, Find;
    RemovedAt(gs, x);
    var i := IndexOf(gs, x);
    var hs := GroupsRemoved(gs, x);
    forall j, k | 0 <= j < k < |hs|
      ensures key(hs[j]) != key(hs[k])
    {
      assert key(gs[Before(i, j)]) != key(gs[Before(i, k)]);
    }
  }

  lemma RemovedFinds(gs: seq<Group>, x: string, m: string)
    requires DistinctBy(gs, NameOf) && Find(gs, x).Some?
    ensures Find(GroupsRemoved(gs, x), m) ==
              if m == x || Find(gs, m).None? then None else Some(Raised(Find(gs, m).value, x, Find(gs, x).value.parent))
    ensures DistinctBy(GroupsRemoved(gs, x), NameOf)
  {
    RemovedAt(gs, x);
    RemovedDistinct(gs, x, NameOf);
    hide GroupsRemoved;
    var i := IndexOf(gs, x);
    var hs := GroupsRemoved(gs, x);
    var j := IndexOf(gs, m);
    if Find(gs, m).Some? && m != x {
      var k := if j < i then j else j - 1;
      assert hs[k] == Raised(gs[j], x, gs[i].parent) && hs[k] in hs;
      FindDistinct(hs, hs[k]);
    } else {
      forall k | 0 <= k < |hs|
        ensures hs[k].name != m
      {
        assert NameOf(gs[Before(i, k)]) != NameOf(gs[i]);
        assert gs[Before(i, k)] in gs;
      }
    }
  }

  lemma {:induction false} RemovedPath(gs: seq<Group>, hs: seq<Group>, x: string, name: string, c: seq<string>)
    requires Path(gs, name, c) && name != x
    requires forall m :: m != x ==> Up(hs, m) == if Up(gs, m) == Some(x) then Up(gs, x) else Up(gs, m)
    ensures Path(hs, name, Without(c, x))
    decreases |c|
  {
    if c != [] {
      if c[0] != x {
        RemovedPath(gs, hs, x, c[0], c[1..]);
        assert ([c[0]] + Without(c[1..], x))[1..] == Without(c[1..], x);
      } else {
        PathNoRepeat(gs, x, c[1..]);
        WithoutKeeps(c[1..], x);
        if |c| > 1 {
          assert c[1..][1..] == c[2..];
          RemovedPath(gs, hs, x, c[1], c[2..]);
          PathNoRepeat(gs, x, c[1..]);
          assert x !in c[2..];
          WithoutKeeps(c[2..], x);
          assert Without(c, x) == c[1..];
        } else {
          assert Without(c, x) == [];
        }
      }
    }
  }

  /** What `Normalize` leaves of an edited configuration whose names are trimmed and distinct. */
  lemma NormalOfEdit(raw: Intent)
    requires Clean(raw) && DistinctBy(raw.groups, NameOf) && Sorted(raw.devices, MacOf)
    ensures Canonical(Normal(raw))
    ensures Normal(raw).devices == raw.devices
    ensures forall m :: Find(Normal(raw).groups, m) == Find(raw.groups, m)
    ensures forall m :: Up(Normal(raw).groups, m) == Up(raw.groups, m)
    ensures forall g :: g in Normal(raw).groups <==> g in raw.groups
    ensures DistinctBy(Normal(raw).groups, FoldOf) <==> DistinctBy(raw.groups, FoldOf)
  {
    NormalOfClean(raw);
    CleanSorts(raw);
    SortedFixed(raw.devices, MacOf);
    SortedFinds(raw.groups);
    SortByMembers(raw.groups, NameOf);
    SortBySorts(raw.groups, NameOf);
    hide Clean, Canonical, Sorted, SortBy, Find, Up;
    if DistinctBy(raw.groups, FoldOf) { DistinctByPermuted(raw.groups, SortBy(raw.groups, NameOf), FoldOf); }
    if DistinctBy(SortBy(raw.groups, NameOf), FoldOf) { DistinctByPermuted(SortBy(raw.groups, NameOf), raw.groups, FoldOf); }
  }

  lemma RehomeSorted(ds: seq<Device>, from: string, into: string)
    requires Sorted(ds, MacOf)
    ensures Sorted(Rehome(ds, from, into), MacOf)
  {
    forall i, j | 0 <= i < j < |ds|
      ensures Leq(MacOf(Rehome(ds, from, into)[i]), MacOf(Rehome(ds, from, into)[j]))
    {
      assert Leq(MacOf(ds[i]), MacOf(ds[j]));
    }
  }

  lemma RemovedClean(c: Intent, x: string)
    requires Clean(c) && Find(c.groups, x).Some?
    ensures Clean(Intent(Rehome(c.devices, x, Find(c.groups, x).value.parent), GroupsRemoved(c.groups, x)))
  {
    RemovedAt(c.groups, x);
    hide GroupsRemoved;
    var hs := GroupsRemoved(c.groups, x);
    forall h | h in hs
      ensures Trim(h.name) == h.name && Trim(h.parent) == h.parent
    {
      var k :| 0 <= k < |hs| && hs[k] == h;
      assert c.groups[Before(IndexOf(c.groups, x), k)] in c.groups;
    }
    var ds := Rehome(c.devices, x, Find(c.groups, x).value.parent);
    forall d | d in ds
      ensures Trim(d.group) == d.group
    {
      var k :| 0 <= k < |ds| && ds[k] == d;
      assert c.devices[k] in c.devices;
    }
  }

  lemma RemovedNormal(c: Intent, x: string)
    requires Canonical(c) && DistinctBy(c.groups, FoldOf) && Find(c.groups, x).Some?
    ensures var px := Find(c.groups, x).value.parent;
            && Canonical(Removed(c, x))
            && Removed(c, x).devices == Rehome(c.devices, x, px)
            && DistinctBy(Removed(c, x).groups, FoldOf)
            && (forall m :: Find(Removed(c, x).groups, m) ==
                  if m == x || Find(c.groups, m).None? then None else Some(Raised(Find(c.groups, m).value, x, px)))
  {
    var raw := Intent(Rehome(c.devices, x, Find(c.groups, x).value.parent), GroupsRemoved(c.groups, x));
    FoldsApart(c.groups);
    RemovedClean(c, x);
    RehomeSorted(c.devices, x, Find(c.groups, x).value.parent);
    forall m
      ensures Find(GroupsRemoved(c.groups, x), m) ==
                if m == x || Find(c.groups, m).None? then None
                else Some(Raised(Find(c.groups, m).value, x, Find(c.groups, x).value.parent))
      ensures DistinctBy(GroupsRemoved(c.groups, x), NameOf)
    {
      RemovedFinds(c.groups, x, m);
    }
    RemovedFinds(c.groups, x, x);
    RemovedDistinct(c.groups, x, FoldOf);
    hide Find, Clean, Canonical, Normal, GroupsRemoved, DistinctBy, Rehome;
    NormalOfEdit(raw);
  }

  lemma RemovedUp(c: Intent, x: string, m: string)
    requires Canonical(c) && Valid(c) && Find(c.groups, x).Some? && m != x
    ensures Up(Removed(c, x).groups, m) ==
            if Up(c.groups, m) == Some(x) then Up(c.groups, x) else Up(c.groups, m)
  {
    RemovedNormal(c, x);
    assert x != "" by { assert NameOk(Find(c.groups, x).value.name); }
    hide Canonical, Valid, Removed;
  }

  /** A removal takes the name out of every chain that held it and changes no other part of any chain. */
  lemma RemoveShortens(c: Intent, x: string, name: string)
    requires Canonical(c) && Valid(c) && Find(c.groups, x).Some?
    requires name != x && Find(c.groups, name).Some?
    ensures Path(Removed(c, x).groups, name, Without(Above(c.groups, name), x))
    ensures Above(Removed(c, x).groups, name) == Without(Above(c.groups, name), x)
    ensures Nests(Removed(c, x).groups, name)
  {
    var gs, hs := c.groups, Removed(c, x).groups;
    var chain := Above(gs, name);
    ForestClimbs(gs, name);
    hide Removed, Above, Find, Up, Canonical, Forest;
    forall m | m != x
      ensures Up(hs, m) == if Up(gs, m) == Some(x) then Up(gs, x) else Up(gs, m)
    {
      RemovedUp(c, x, m);
    }
    RemovedPath(gs, hs, x, name, chain);
    WithoutKeeps(chain, x);
    PathIsAbove(hs, name, Without(chain, x));
  }

  lemma RemovedForest(c: Intent, x: string)
    requires Canonical(c) && Valid(c) && Find(c.groups, x).Some?
    ensures Forest(Removed(c, x).groups)
  {
    RemovedNormal(c, x);
    var gs, hs := c.groups, Removed(c, x).groups;
    FoldsApart(hs);
    hide Removed, Canonical, Nests, Find;
    forall h | h in hs
      ensures NameOk(h.name) && (h.parent != "" ==> Find(hs, h.parent).Some?) && Nests(hs, h.name)
    {
      FindDistinct(hs, h);
      RemoveShortens(c, x, h.name);
      RaisedParent(gs, x, h.name);
      assert Find(gs, h.name).value in gs && Find(gs, h.name).value.name == h.name;
    }
  }

  /** Removing a group keeps a stored configuration valid, so that the request is never refused; every device and
      every remaining group keeps its chain but for the removed name. */
  lemma RemoveKeepsForest(c: Intent, x: string)
    requires Canonical(c) && Valid(c) && Find(c.groups, x).Some?
    ensures Canonical(Removed(c, x)) && Valid(Removed(c, x))
    ensures forall m :: Find(Removed(c, x).groups, m).Some? <==> m != x && Find(c.groups, m).Some?
    ensures |Removed(c, x).devices| == |c.devices|
    ensures forall k :: 0 <= k < |c.devices| ==>
              && Removed(c, x).devices[k].mac == c.devices[k].mac
              && Ladder(Removed(c, x), Removed(c, x).devices[k]) == Without(Ladder(c, c.devices[k]), x)
  {
    RemovedNormal(c, x);
    RemovedForest(c, x);
    RaisedParent(c.groups, x, x);
    var px := Find(c.groups, x).value.parent;
    var ds := Removed(c, x).devices;
    assert forall m :: Find(Removed(c, x).groups, m).Some? <==> m != x && Find(c.groups, m).Some?;
    assert ds == Rehome(c.devices, x, px);
    hide Removed, Canonical, Forest, Ladder, Find;
    forall k | 0 <= k < |c.devices|
      ensures ds[k].mac == c.devices[k].mac
      ensures Ladder(Removed(c, x), ds[k]) == Without(Ladder(c, c.devices[k]), x)
      ensures ds[k].group != "" ==> Find(Removed(c, x).groups, ds[k].group).Some?
    {
      assert c.devices[k] in c.devices;
      RemovedLadder(c, x, c.devices[k]);
    }
  }

  lemma RaisedParent(gs: seq<Group>, x: string, m: string)
    requires Forest(gs) && Find(gs, x).Some? && Find(gs, m).Some?
    ensures var g := Raised(Find(gs, m).value, x, Find(gs, x).value.parent);
            g.parent != "" ==> g.parent != x && Find(gs, g.parent).Some?
  {
    ForestClimbs(gs, x);
    PathNoRepeat(gs, x, Above(gs, x));
    assert ParentKnown(gs, Find(gs, x).value) && ParentKnown(gs, Find(gs, m).value);
  }

  lemma RemovedLadder(c: Intent, x: string, d: Device)
    requires Canonical(c) && Valid(c) && Find(c.groups, x).Some?
    requires d.group == "" || Find(c.groups, d.group).Some?
    ensures var e := if d.group == x then d.(group := Find(c.groups, x).value.parent) else d;
            Ladder(Removed(c, x), e) == Without(Ladder(c, d), x)
  {
    var gs := c.groups;
    if d.group == x && x != "" {
      ForestClimbs(gs, x);
      var chain := Above(gs, x);
      PathNoRepeat(gs, x, chain);
      WithoutKeeps(chain, x);
      assert ([x] + chain)[1..] == chain;
      var px := Find(gs, x).value.parent;
      if px != "" {
        assert chain[0] == px && Path(gs, px, chain[1..]);
        PathIsAbove(gs, px, chain[1..]);
        assert chain == [px] + Above(gs, px);
        RaisedParent(gs, x, x);
        RemoveShortens(c, x, px);
        WithoutKeeps(Above(gs, px), x);
      }
    } else if d.group != "" {
      RemoveShortens(c, x, d.group);
      assert ([d.group] + Above(gs, d.group))[1..] == Above(gs, d.group);
    } else {
      assert x != "" by { assert NameOk(Find(gs, x).value.name); }
    }
  }

}
