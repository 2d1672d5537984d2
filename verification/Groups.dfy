/** The chain above a device group: what `Ancestors` and `inCycle` compute from the parent names
    (internal/devices/config.go, internal/devices/validate.go). */
module Groups {
  import opened Wrappers
  import opened Ordering

  datatype Group = Group(name: string, parent: string)

  function NameOf(g: Group): string { g.name }

  /** The first group of that name, or the length of the list. */
  function IndexOf(gs: seq<Group>, name: string): (i: nat)
    ensures i <= |gs|
    ensures i < |gs| ==> gs[i].name == name
    ensures forall k :: 0 <= k < i ==> gs[k].name != name
  {
    IndexBy(gs, NameOf, name)
  }

  function Find(gs: seq<Group>, name: string): (r: Option<Group>)
    ensures r.Some? <==> exists g :: g in gs && g.name == name
    ensures r.Some? ==> r.value in gs && r.value.name == name
  {
    var i := IndexOf(gs, name);
    if i < |gs| then Some(gs[i]) else None
  }

  lemma FindDistinct(gs: seq<Group>, g: Group)
    requires DistinctBy(gs, NameOf) && g in gs
    ensures Find(gs, g.name) == Some(g)
  {
    var i := IndexOf(gs, g.name);
    var k :| 0 <= k < |gs| && gs[k] == g;
    assert i <= k;
    assert i != k ==> NameOf(gs[i]) != NameOf(gs[k]);
  }

  // ----- one level up, and the walk -----

  function Up(gs: seq<Group>, name: string): Option<string> {
    var g := Find(gs, name);
    if g.Some? && g.value.parent != "" then Some(g.value.parent) else None
  }

  function Walk(gs: seq<Group>, name: string, k: nat): Option<string> {
    if k == 0 then Some(name)
    else
      var at := Walk(gs, name, k - 1);
      if at.Some? then Up(gs, at.value) else None
  }

  /** The walk upward comes back to where it has been. */
  ghost predicate Revisits(gs: seq<Group>, name: string) {
    exists i: nat, j: nat :: i < j && Walk(gs, name, i).Some? && Walk(gs, name, i) == Walk(gs, name, j)
  }

  /** `chain` is the whole walk above `name`: it ends where there is nothing above. */
  ghost predicate Path(gs: seq<Group>, name: string, chain: seq<string>)
    decreases |chain|
  {
    if chain == [] then Up(gs, name).None? else Up(gs, name) == Some(chain[0]) && Path(gs, chain[0], chain[1..])
  }

  lemma {:induction false} PathUnique(gs: seq<Group>, name: string, c: seq<string>, d: seq<string>)
    requires Path(gs, name, c) && Path(gs, name, d)
    ensures c == d
    decreases |c|
  {
    if c != [] {
      PathUnique(gs, c[0], c[1..], d[1..]);
      assert c == [c[0]] + c[1..] && d == [d[0]] + d[1..];
    }
  }

  lemma {:induction false} PathSuffix(gs: seq<Group>, name: string, c: seq<string>, i: nat)
    requires Path(gs, name, c) && i < |c|
    ensures Path(gs, c[i], c[i + 1..])
    decreases |c|
  {
    if i > 0 {
      PathSuffix(gs, c[0], c[1..], i - 1);
      assert c[1..][i..] == c[i + 1..];
    }
  }

  lemma PathNoRepeat(gs: seq<Group>, name: string, c: seq<string>)
    requires Path(gs, name, c)
    ensures name !in c
  {
    if name in c {
      var i :| 0 <= i < |c| && c[i] == name;
      PathSuffix(gs, name, c, i);
      PathUnique(gs, name, c, c[i + 1..]);
    }
  }

  lemma {:induction false} PathAgrees(gs: seq<Group>, hs: seq<Group>, name: string, c: seq<string>)
    requires Path(gs, name, c)
    requires Up(gs, name) == Up(hs, name)
    requires forall m :: m in c ==> Up(gs, m) == Up(hs, m)
    ensures Path(hs, name, c)
    decreases |c|
  {
    if c != [] { PathAgrees(gs, hs, c[0], c[1..]); }
  }

  lemma {:induction false} PathWalk(gs: seq<Group>, name: string, c: seq<string>, k: nat)
    requires Path(gs, name, c)
    ensures Walk(gs, name, k) == if k == 0 then Some(name) else if k <= |c| then Some(c[k - 1]) else None
  {
    if k > 0 {
      PathWalk(gs, name, c, k - 1);
      if 1 < k <= |c| + 1 { PathSuffix(gs, name, c, k - 2); }
    }
  }

  lemma PathNeverRevisits(gs: seq<Group>, name: string, c: seq<string>)
    requires Path(gs, name, c)
    ensures !Revisits(gs, name)
  {
    hide Walk, Path, Up, Find;
    forall i: nat, j: nat | i < j && Walk(gs, name, i).Some?
      ensures Walk(gs, name, i) != Walk(gs, name, j)
    {
      PathWalk(gs, name, c, i);
      PathWalk(gs, name, c, j);
      if i == 0 {
        PathNoRepeat(gs, name, c);
      } else {
        PathSuffix(gs, name, c, i - 1);
        PathNoRepeat(gs, c[i - 1], c[i..]);
        if j <= |c| { assert c[i..][j - 1 - i] == c[j - 1]; }
      }
    }
  }

  // ----- the code's walk, which keeps what it has seen -----

  function ParentsOf(gs: seq<Group>): set<string> { set g <- gs :: g.parent }

  function Climb(gs: seq<Group>, at: string, seen: set<string>): seq<string>
    decreases |ParentsOf(gs) - seen|
  {
    var p := Up(gs, at);
    if p.None? || p.value in seen then []
    else
      SeenShrinks(gs, at, seen);
      [p.value] + Climb(gs, p.value, seen + {p.value})
  }

  lemma SeenShrinks(gs: seq<Group>, at: string, seen: set<string>)
    requires Up(gs, at).Some? && Up(gs, at).value !in seen
    ensures |ParentsOf(gs) - (seen + {Up(gs, at).value})| < |ParentsOf(gs) - seen|
  {
    var p := Up(gs, at).value;
    assert p in ParentsOf(gs) - seen;
    assert ParentsOf(gs) - (seen + {p}) == (ParentsOf(gs) - seen) - {p};
  }

  function Above(gs: seq<Group>, name: string): seq<string> { Climb(gs, name, {name}) }

  function LastOf(name: string, chain: seq<string>): string { if chain == [] then name else chain[|chain| - 1] }

  lemma {:induction false} ClimbPath(gs: seq<Group>, at: string, seen: set<string>, c: seq<string>)
    requires Path(gs, at, c)
    requires forall m :: m in c ==> m !in seen
    ensures Climb(gs, at, seen) == c
    decreases |c|
  {
    if c != [] {
      PathNoRepeat(gs, c[0], c[1..]);
      ClimbPath(gs, c[0], seen + {c[0]}, c[1..]);
      assert c == [c[0]] + c[1..];
    }
  }

  /** The climb is the walk, and it stops at the top or just before a repeat. */
  lemma {:induction false} ClimbStops(gs: seq<Group>, at: string, seen: set<string>)
    ensures var c := Climb(gs, at, seen);
            var next := Up(gs, LastOf(at, c));
            if next.None? then Path(gs, at, c) else next.value in seen || next.value in c
    decreases |ParentsOf(gs) - seen|
  {
    var p := Up(gs, at);
    if p.Some? && p.value !in seen {
      SeenShrinks(gs, at, seen);
      ClimbStops(gs, p.value, seen + {p.value});
      var d := Climb(gs, p.value, seen + {p.value});
      var c := [p.value] + d;
      assert LastOf(at, c) == LastOf(p.value, d);
      assert c[1..] == d;
    }
  }

  lemma ClimbStep(gs: seq<Group>, at: string, seen: set<string>)
    requires Climb(gs, at, seen) != []
    ensures Up(gs, at).Some?
    ensures var p := Up(gs, at).value; Climb(gs, at, seen) == [p] + Climb(gs, p, seen + {p})
  {}

  lemma UpOf(gs: seq<Group>, name: string)
    ensures Up(gs, name) == var g := Find(gs, name); if g.Some? && g.value.parent != "" then Some(g.value.parent) else None
  {}

  lemma ClimbGoesOn(gs: seq<Group>, at: string, seen: set<string>)
    ensures var p := Up(gs, at);
            Climb(gs, at, seen) ==
            if p.None? || p.value in seen then [] else [p.value] + Climb(gs, p.value, seen + {p.value})
  {}

  lemma {:induction false} ClimbWalks(gs: seq<Group>, name: string, at: string, seen: set<string>, n: nat, k: nat)
    requires Walk(gs, name, n) == Some(at)
    requires k < |Climb(gs, at, seen)|
    ensures Walk(gs, name, n + 1 + k) == Some(Climb(gs, at, seen)[k])
    decreases k
  {
    hide Up, Walk, Climb;
    ClimbStep(gs, at, seen);
    WalkStep(gs, name, n);
    var p := Up(gs, at).value;
    var more := Climb(gs, p, seen + {p});
    if k == 0 {
      assert ([p] + more)[0] == p;
    } else {
      assert ([p] + more)[k] == more[k - 1];
      ClimbWalks(gs, name, p, seen + {p}, n + 1, k - 1);
    }
  }

  /** The climb's `i`-th name, counting from the start itself, is the walk's. */
  lemma AboveWalks(gs: seq<Group>, name: string, i: nat)
    requires i <= |Above(gs, name)|
    ensures Walk(gs, name, i) == Some(([name] + Above(gs, name))[i])
  {
    if i > 0 { ClimbWalks(gs, name, name, {name}, 0, i - 1); }
  }

  /** A name the climb passed is a place on the walk, and every place but the last has something above it. */
  lemma PassedWalks(gs: seq<Group>, name: string, x: string) returns (i: nat)
    requires x == name || x in Above(gs, name)
    ensures i <= |Above(gs, name)| && Walk(gs, name, i) == Some(x)
    ensures i < |Above(gs, name)| ==> Up(gs, x).Some?
  {
    var c := Above(gs, name);
    hide Above, Walk, Up;
    i := 0;
    if x != name {
      var k :| 0 <= k < |c| && c[k] == x;
      i := k + 1;
    }
    assert ([name] + c)[i] == x;
    AboveWalks(gs, name, i);
    if i < |c| {
      AboveWalks(gs, name, i + 1);
      WalkStep(gs, name, i);
    }
  }

  lemma LastWalks(gs: seq<Group>, name: string)
    ensures Walk(gs, name, |Above(gs, name)|) == Some(LastOf(name, Above(gs, name)))
  {
    var c := Above(gs, name);
    assert ([name] + c)[|c|] == LastOf(name, c);
    hide Above, Walk, LastOf;
    AboveWalks(gs, name, |c|);
  }

  lemma RevisitsBy(gs: seq<Group>, name: string, i: nat, j: nat)
    requires i < j && Walk(gs, name, i).Some? && Walk(gs, name, i) == Walk(gs, name, j)
    ensures Revisits(gs, name)
  {}

  lemma AboveStops(gs: seq<Group>, name: string)
    ensures var c := Above(gs, name);
            var next := Up(gs, LastOf(name, c));
            if next.None? then Path(gs, name, c) else next.value == name || next.value in c
  {
    ClimbStops(gs, name, {name});
  }

  /** A climb that stops although something is above its last name: that something was passed before. */
  lemma StoppedRevisits(gs: seq<Group>, name: string)
    requires Up(gs, LastOf(name, Above(gs, name))).Some?
    ensures Revisits(gs, name) && Find(gs, Up(gs, LastOf(name, Above(gs, name))).value).Some?
  {
    hide Above, Walk, Up, Find, LastOf, Revisits, Path;
    var n := |Above(gs, name)|;
    var next := Up(gs, LastOf(name, Above(gs, name)));
    AboveStops(gs, name);
    var i := PassedWalks(gs, name, next.value);
    LastWalks(gs, name);
    WalkStep(gs, name, n);
    RevisitsBy(gs, name, i, n + 1);
    UpFound(gs, next.value);
  }

  lemma WalkStep(gs: seq<Group>, name: string, k: nat)
    ensures Walk(gs, name, k + 1) == var at := Walk(gs, name, k); if at.Some? then Up(gs, at.value) else None
  {}

  lemma UpFound(gs: seq<Group>, name: string)
    requires Up(gs, name).Some?
    ensures Find(gs, name).Some?
  {}

  /** The walk above a name either ends, and then the climb is exactly that path, or it comes back to a group
      already passed, and then something is above the climb's last name. */
  lemma ClimbDecides(gs: seq<Group>, name: string)
    ensures var next := Up(gs, LastOf(name, Above(gs, name)));
            && (next.None? <==> Path(gs, name, Above(gs, name)))
            && (next.Some? <==> Revisits(gs, name))
            && (next.Some? ==> Find(gs, next.value).Some?)
  {
    var c := Above(gs, name);
    AboveStops(gs, name);
    if Up(gs, LastOf(name, c)).Some? { StoppedRevisits(gs, name); }
    hide Above, Up, Find, Revisits, LastOf;
    if Path(gs, name, c) { PathNeverRevisits(gs, name, c); }
  }

  /** A path, when there is one, is what the climb returns. */
  lemma PathIsAbove(gs: seq<Group>, name: string, c: seq<string>)
    requires Path(gs, name, c)
    ensures Above(gs, name) == c
  {
    PathNoRepeat(gs, name, c);
    ClimbPath(gs, name, {name}, c);
  }
}
