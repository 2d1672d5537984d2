/** What the DHCP renderer promises the planner (internal/dhcp/render.go): which files there are, which of them
    a signal rereads, and what in them the daemon reads at all. File contents are lists of lines. */
module Render {
  import opened Wrappers
  import opened Ordering
  import opened Strings
  import opened Dhcp

  type Line = string
  type Data = seq<Line>

  /** The rendered directory; everything the module writes is below it. */
  datatype Layout = Layout(dir: string)
  {
    function Conf(): string { dir + "/dnsmasq.conf" }
    function HostsDir(): string { dir + "/hosts.d/" }
    function OptsDir(): string { dir + "/opts.d/" }

    /** The directories dnsmasq rereads on a signal. */
    predicate Reloadable(path: string) { HostsDir() <= path || OptsDir() <= path }

    /** What the observer looks at: the main file, and every file below the directory whose own name has no
        leading dot. */
    predicate Visible(path: string) {
      path == Conf() || (dir + "/" <= path && !("." <= Base(path)))
    }
  }

  /** The last element of a path. */
  function Base(path: string): string
    decreases |path|
  {
    if path == "" || path[|path| - 1] == '/' then "" else Base(path[..|path| - 1]) + [path[|path| - 1]]
  }

  datatype File = File(path: string, data: Data, reloadable: bool)

  function PathOf(f: File): string { f.path }

  // ----- canonical contents -----

  predicate Comment(trimmed: string) {
    trimmed == "" || trimmed[0] == '#'
  }

  /** The lines the daemon reads: trimmed, without blanks and comments. */
  function CanonicalLines(data: Data): Data {
    if data == [] then []
    else
      var init := CanonicalLines(data[..|data| - 1]);
      var trimmed := Trim(data[|data| - 1]);
      if Comment(trimmed) then init else init + [trimmed]
  }

  /** The filter, in the array it reads: a line is kept in the next free place. */
  method Canonical(lines: array<Line>) returns (kept: nat)
    modifies lines
    ensures kept <= lines.Length
    ensures lines[..kept] == CanonicalLines(old(lines[..]))
  {
    kept := 0;
    ghost var was := lines[..];
    for i := 0 to lines.Length
      invariant kept <= i
      invariant lines[..kept] == CanonicalLines(was[..i])
      invariant lines[i..] == was[i..]
    {
      assert was[..i + 1][..i] == was[..i] && lines[i] == was[i];
      var trimmed := Trim(lines[i]);
      if Comment(trimmed) { continue; }
      lines[kept] := trimmed;
      kept := kept + 1;
    }
    assert was[..lines.Length] == was;
  }

  /** Normalizing twice is normalizing once, so comparing canonical files is comparing what they mean. */
  lemma {:induction false} CanonicalIdempotent(data: Data)
    ensures CanonicalLines(CanonicalLines(data)) == CanonicalLines(data)
  {
    if data != [] {
      var init := CanonicalLines(data[..|data| - 1]);
      var trimmed := Trim(data[|data| - 1]);
      CanonicalIdempotent(data[..|data| - 1]);
      TrimTrimmed(data[|data| - 1]);
      assert (init + [trimmed])[..|init|] == init;
    }
  }

  /** Adding or dropping comment lines anywhere changes nothing the daemon reads. */
  lemma {:induction false} CommentsDoNotCount(before: Data, comment: Line, after: Data)
    requires Comment(Trim(comment))
    ensures CanonicalLines(before + [comment] + after) == CanonicalLines(before + after)
  {
    if after == [] {
      assert before + [comment] + after == before + [comment];
      assert (before + [comment])[..|before|] == before && before + after == before;
    } else {
      var init := after[..|after| - 1];
      var last := after[|after| - 1];
      CommentsDoNotCount(before, comment, init);
      assert (before + [comment] + after)[..|before| + |after|] == before + [comment] + init;
      assert (before + after)[..|before| + |after| - 1] == before + init;
    }
  }

  /** A file is read line by line: a line counts unless it is blank or starts, after its spaces, with a hash, and then
      it counts as itself without the spaces around it. */
  lemma {:induction false} LinesCount(a: Data, b: Data, line: Line)
    ensures CanonicalLines(a + b) == CanonicalLines(a) + CanonicalLines(b)
    ensures CanonicalLines([line]) == if Trim(line) == "" || Trim(line)[0] == '#' then [] else [Trim(line)]
    decreases |b|
  {
    assert [line][..0] == [];
    if b == [] {
      assert a + b == a;
    } else {
      assert (a + b)[..|a + b| - 1] == a + b[..|b| - 1];
      LinesCount(a, b[..|b| - 1], line);
    }
  }

  // ----- the files -----

  function StripColons(mac: string): string {
    if mac == "" then "" else (if mac[0] == ':' then "" else [mac[0]]) + StripColons(mac[1..])
  }

  function OptsPath(l: Layout, p: Pool): string { l.OptsDir() + (p.network + ".conf") }

  function HostPath(l: Layout, r: Reservation): string { l.HostsDir() + (StripColons(r.mac) + ".conf") }

  /** A pool without options has no file. */
  function OptionFiles(l: Layout, pools: seq<Pool>, options: Pool -> Option<Data>): seq<File> {
    if pools == [] then []
    else (match options(pools[0])
          case None => []
          case Some(data) => [File(OptsPath(l, pools[0]), data, true)]) + OptionFiles(l, pools[1..], options)
  }

  function HostFiles(l: Layout, rs: seq<Reservation>, host: Reservation -> Data): seq<File> {
    if rs == [] then [] else [File(HostPath(l, rs[0]), host(rs[0]), true)] + HostFiles(l, rs[1..], host)
  }

  /** The texts of the files are given; which files there are is not. */
  function Rendered(l: Layout, c: Config, main: Data, options: Pool -> Option<Data>, host: Reservation -> Data): seq<File> {
    SortBy([File(l.Conf(), main, false)] + OptionFiles(l, c.pools, options) + HostFiles(l, c.reservations, host), PathOf)
  }

  lemma {:induction false} OptionFilesFor(l: Layout, pools: seq<Pool>, options: Pool -> Option<Data>, f: File)
    ensures f in OptionFiles(l, pools, options) <==>
            exists p :: p in pools && options(p).Some? &&
                        f == File(l.dir + ("/opts.d/" + (p.network + ".conf")), options(p).value, true)
  {
    if pools != [] {
      OptionFilesFor(l, pools[1..], options, f);
      assert OptsPath(l, pools[0]) == l.dir + ("/opts.d/" + (pools[0].network + ".conf"));
      assert pools == [pools[0]] + pools[1..];
    }
  }

  lemma {:induction false} HostFilesFor(l: Layout, rs: seq<Reservation>, host: Reservation -> Data, f: File)
    ensures f in HostFiles(l, rs, host) <==>
            exists r :: r in rs && f == File(l.dir + ("/hosts.d/" + (StripColons(r.mac) + ".conf")), host(r), true)
  {
    if rs != [] {
      HostFilesFor(l, rs[1..], host, f);
      assert HostPath(l, rs[0]) == l.dir + ("/hosts.d/" + (StripColons(rs[0].mac) + ".conf"));
      assert rs == [rs[0]] + rs[1..];
    }
  }

  /** Which files there are: the main file, one for every pool that has options, and one for every reservation; each at
      its place with its text, and no others. */
  lemma RenderedAre(l: Layout, c: Config, main: Data, options: Pool -> Option<Data>, host: Reservation -> Data, f: File)
    ensures f in Rendered(l, c, main, options, host) <==>
            || f == File(l.dir + "/dnsmasq.conf", main, false)
            || (exists p :: p in c.pools && options(p).Some? &&
                            f == File(l.dir + ("/opts.d/" + (p.network + ".conf")), options(p).value, true))
            || (exists r :: r in c.reservations &&
                            f == File(l.dir + ("/hosts.d/" + (StripColons(r.mac) + ".conf")), host(r), true))
  {
    OptionFilesFor(l, c.pools, options, f);
    HostFilesFor(l, c.reservations, host, f);
    hide OptionFiles, HostFiles;
    SortByMembers([File(l.Conf(), main, false)] + OptionFiles(l, c.pools, options) + HostFiles(l, c.reservations, host), PathOf);
  }

  /** Taking the colons out: nothing else changes, piece by piece. */
  lemma {:induction false} StripMeans(a: string, b: string)
    ensures StripColons(a + b) == StripColons(a) + StripColons(b)
    ensures StripColons(":") == ""
    ensures ':' !in a ==> StripColons(a) == a
  {
    assert ":"[1..] == "";
    if a == "" {
      assert a + b == b;
    } else {
      assert a == [a[0]] + a[1..] && (a + b)[1..] == a[1..] + b;
      StripMeans(a[1..], b);
    }
  }

  ghost predicate DistinctPaths(files: seq<File>) {
    DistinctBy(files, PathOf)
  }

  /** What the planner and the applier need of a rendering. */
  ghost predicate SoundRendering(l: Layout, files: seq<File>) {
    DistinctPaths(files) && forall f <- files :: l.Visible(f.path) && f.reloadable == l.Reloadable(f.path)
  }

  /** A network name as the link module accepts it. */
  predicate NetworkName(name: string) {
    name != "" && forall i :: 0 <= i < |name| ==> 'a' <= name[i] <= 'z' || '0' <= name[i] <= '9' || name[i] == '-'
  }

  // ----- rendered paths are distinct -----

  lemma {:induction false} StripInjective(a: string, b: string)
    requires Octets(a) && Octets(b) && StripColons(a) == StripColons(b)
    ensures a == b
  {
    StripOctet(a);
    StripOctet(b);
    if |a| == 2 || |b| == 2 {
      StripLength(a);
      StripLength(b);
      assert a == [a[0], a[1]] && b == [b[0], b[1]];
    } else {
      assert StripColons(a)[2..] == StripColons(a[3..]) && StripColons(b)[2..] == StripColons(b[3..]);
      StripInjective(a[3..], b[3..]);
      assert a == [a[0], a[1], a[2]] + a[3..] && b == [b[0], b[1], b[2]] + b[3..];
    }
  }

  lemma StripFirst(a: string)
    requires a != ""
    ensures StripColons(a) == (if a[0] == ':' then "" else [a[0]]) + StripColons(a[1..])
  {}

  lemma StripTwo(a: string)
    requires |a| >= 2 && a[0] != ':' && a[1] != ':'
    ensures StripColons(a) == [a[0], a[1]] + StripColons(a[2..])
  {
    StripFirst(a);
    StripFirst(a[1..]);
    hide StripColons;
    assert a[1..][1..] == a[2..];
    assert [a[0]] + ([a[1]] + StripColons(a[2..])) == [a[0], a[1]] + StripColons(a[2..]);
  }

  lemma NormalOctet(a: string)
    requires Octets(a)
    ensures |a| == 2 || |a| > 3
    ensures a[0] != ':' && a[1] != ':'
    ensures |a| > 2 ==> a[2] == ':' && Octets(a[3..])
  {
    assert a[0] != ':' && a[1] != ':';
    if |a| > 2 {
      assert a[2] == ':';
      assert forall i :: 0 <= i < |a| - 3 ==> a[3..][i] == a[i + 3];
    }
  }

  lemma StripOctet(a: string)
    requires Octets(a)
    ensures |a| == 2 ==> StripColons(a) == [a[0], a[1]]
    ensures |a| > 2 ==> Octets(a[3..]) && StripColons(a) == [a[0], a[1]] + StripColons(a[3..])
  {
    NormalOctet(a);
    assert StripColons("") == "";
    hide Octets, StripColons;
    StripTwo(a);
    if |a| > 2 {
      StripFirst(a[2..]);
      assert a[2..][1..] == a[3..];
      assert "" + StripColons(a[3..]) == StripColons(a[3..]);
    } else {
      assert a[2..] == "";
      assert [a[0], a[1]] + "" == [a[0], a[1]];
    }
  }

  lemma {:induction false} StripLength(a: string)
    requires Octets(a)
    ensures 3 * |StripColons(a)| == 2 * (|a| + 1)
  {
    StripOctet(a);
    if |a| > 2 { StripLength(a[3..]); }
  }

  lemma {:induction false} OptionFilesAre(l: Layout, pools: seq<Pool>, options: Pool -> Option<Data>)
    ensures forall f <- OptionFiles(l, pools, options) :: f.reloadable && exists p <- pools :: f.path == OptsPath(l, p)
    ensures (forall i, j :: 0 <= i < j < |pools| ==> pools[i].network != pools[j].network) ==>
              DistinctPaths(OptionFiles(l, pools, options))
  {
    if pools != [] {
      OptionFilesAre(l, pools[1..], options);
      var others := OptionFiles(l, pools[1..], options);
      forall f | f in others
        ensures f.path == OptsPath(l, pools[0]) ==> exists i :: 0 < i < |pools| && pools[i].network == pools[0].network
      {
        var p :| p in pools[1..] && f.path == OptsPath(l, p);
        if f.path == OptsPath(l, pools[0]) {
          SamePrefix(l.OptsDir(), p.network + ".conf", pools[0].network + ".conf");
          SameSuffix(p.network, pools[0].network, ".conf");
        }
      }
    }
  }

  lemma {:induction false} HostFilesAre(l: Layout, rs: seq<Reservation>, host: Reservation -> Data)
    ensures forall f <- HostFiles(l, rs, host) :: f.reloadable && exists r <- rs :: f.path == HostPath(l, r)
    ensures (forall i, j :: 0 <= i < j < |rs| ==> rs[i].mac != rs[j].mac) && (forall r <- rs :: Octets(r.mac)) ==>
              DistinctPaths(HostFiles(l, rs, host))
  {
    if rs != [] {
      HostFilesAre(l, rs[1..], host);
      var others := HostFiles(l, rs[1..], host);
      forall f | f in others && forall r <- rs :: Octets(r.mac)
        ensures f.path == HostPath(l, rs[0]) ==> exists i :: 0 < i < |rs| && rs[i].mac == rs[0].mac
      {
        var r :| r in rs[1..] && f.path == HostPath(l, r);
        if f.path == HostPath(l, rs[0]) {
          SamePrefix(l.HostsDir(), StripColons(r.mac) + ".conf", StripColons(rs[0].mac) + ".conf");
          SameSuffix(StripColons(r.mac), StripColons(rs[0].mac), ".conf");
          StripInjective(r.mac, rs[0].mac);
        }
      }
    }
  }

  lemma SamePrefix(prefix: string, a: string, b: string)
    requires prefix + a == prefix + b
    ensures a == b
  {
    assert (prefix + a)[|prefix|..] == a && (prefix + b)[|prefix|..] == b;
  }

  lemma SameSuffix(a: string, b: string, suffix: string)
    requires a + suffix == b + suffix
    ensures a == b
  {
    assert |a| == |b|;
    assert (a + suffix)[..|a|] == a && (b + suffix)[..|b|] == b;
  }

  /** The three places a file can be are told apart by the character after the directory. */
  lemma Places(l: Layout, name: string)
    ensures l.Conf()[|l.dir| + 1] == 'd' && (l.OptsDir() + name)[|l.dir| + 1] == 'o' && (l.HostsDir() + name)[|l.dir| + 1] == 'h'
    ensures l.Reloadable(l.OptsDir() + name) && l.Reloadable(l.HostsDir() + name) && !l.Reloadable(l.Conf())
  {
    assert l.Conf()[|l.dir| + 1] == "/dnsmasq.conf"[1];
    assert l.OptsDir()[|l.dir| + 1] == "/opts.d/"[1];
    assert l.HostsDir()[|l.dir| + 1] == "/hosts.d/"[1];
  }

  lemma {:induction false} BaseOf(prefix: string, name: string)
    requires prefix != "" && prefix[|prefix| - 1] == '/'
    requires forall i :: 0 <= i < |name| ==> name[i] != '/'
    ensures Base(prefix + name) == name
  {
    if name == "" {
      assert prefix + name == prefix;
    } else {
      var init := name[..|name| - 1];
      BaseOf(prefix, init);
      assert (prefix + name)[..|prefix + name| - 1] == prefix + init;
      assert name == init + [name[|name| - 1]];
    }
  }

  /** A name without slash or leading dot is visible below either directory. */
  lemma VisibleBelow(l: Layout, name: string)
    requires name != "" && name[0] != '.' && forall i :: 0 <= i < |name| ==> name[i] != '/'
    ensures l.Visible(l.OptsDir() + name) && l.Visible(l.HostsDir() + name)
  {
    BaseOf(l.OptsDir(), name);
    BaseOf(l.HostsDir(), name);
    Below(l.dir, "opts.d/", l.OptsDir(), name);
    Below(l.dir, "hosts.d/", l.HostsDir(), name);
  }

  /** What the observer sees below the directory, in whatever sub-directory: every file whose own name has no leading
      dot. */
  lemma VisibleMeans(l: Layout, sub_: string, name: string)
    requires name != "" && forall i :: 0 <= i < |name| ==> name[i] != '/'
    requires sub_ == "" || sub_[|sub_| - 1] == '/'
    ensures var prefix := l.dir + "/" + sub_; l.Visible(prefix + name) <==> name[0] != '.' || prefix + name == l.Conf()
  {
    var prefix := l.dir + "/" + sub_;
    assert prefix[|prefix| - 1] == '/';
    BaseOf(prefix, name);
    assert prefix + name == (l.dir + "/") + (sub_ + name);
    hide Base;
  }

  lemma Below(dir: string, sub: string, full: string, name: string)
    requires full == dir + ("/" + sub)
    ensures dir + "/" <= full + name
  {
    assert full + name == dir + "/" + (sub + name);
  }

  lemma OptsNamed(l: Layout, p: Pool)
    requires NetworkName(p.network)
    ensures l.Visible(OptsPath(l, p)) && l.Reloadable(OptsPath(l, p)) && OptsPath(l, p)[|l.dir| + 1] == 'o'
  {
    Places(l, p.network + ".conf");
    VisibleBelow(l, p.network + ".conf");
  }

  lemma {:induction false} StripNamed(mac: string)
    ensures forall i :: 0 <= i < |StripColons(mac)| ==> StripColons(mac)[i] in mac
  {
    if mac != "" {
      StripNamed(mac[1..]);
      assert mac == [mac[0]] + mac[1..];
    }
  }

  lemma HostNamed(l: Layout, r: Reservation)
    requires Octets(r.mac)
    ensures l.Visible(HostPath(l, r)) && l.Reloadable(HostPath(l, r)) && HostPath(l, r)[|l.dir| + 1] == 'h'
  {
    var name := StripColons(r.mac) + ".conf";
    StripNamed(r.mac);
    StripLength(r.mac);
    Places(l, name);
    assert forall c :: c in r.mac ==> HexDigit(c) || c == ':';
    assert StripColons(r.mac)[0] in r.mac;
    assert forall i :: 0 <= i < |name| ==> name[i] != '/';
    VisibleBelow(l, name);
  }

  lemma {:induction false} DistinctTogether(a: seq<File>, b: seq<File>)
    requires DistinctPaths(a) && DistinctPaths(b)
    requires forall f, g :: f in a && g in b ==> f.path != g.path
    ensures DistinctPaths(a + b)
  {
    var all := a + b;
    forall i, j | 0 <= i < j < |all|
      ensures PathOf(all[i]) != PathOf(all[j])
    {
      if i < |a| <= j {
        assert all[i] in a && all[j] in b;
      } else if |a| <= i {
        assert PathOf(b[i - |a|]) != PathOf(b[j - |a|]);
      }
    }
  }

  /** The rendering of a valid configuration writes each path once, where the observer will see it again, and
      marks as reloadable exactly what lies in the directories a signal rereads. */
  lemma RenderedIsSound(l: Layout, c: Config, networks: Networks, main: Data, options: Pool -> Option<Data>, host: Reservation -> Data)
    requires ValidConfig(c, networks) && forall name <- networks :: NetworkName(name)
    ensures SoundRendering(l, Rendered(l, c, main, options, host))
  {
    var conf := [File(l.Conf(), main, false)];
    var opts := OptionFiles(l, c.pools, options);
    var hosts := HostFiles(l, c.reservations, host);
    Places(l, "");
    OptionFilesAre(l, c.pools, options);
    HostFilesAre(l, c.reservations, host);
    forall f | f in opts
      ensures l.Visible(f.path) && l.Reloadable(f.path) && f.path[|l.dir| + 1] == 'o'
    {
      var p :| p in c.pools && f.path == OptsPath(l, p);
      assert ValidPool(p, networks);
      OptsNamed(l, p);
    }
    forall f | f in hosts
      ensures l.Visible(f.path) && l.Reloadable(f.path) && f.path[|l.dir| + 1] == 'h'
    {
      var r :| r in c.reservations && f.path == HostPath(l, r);
      HostNamed(l, r);
    }
    DistinctTogether(conf, opts);
    DistinctTogether(conf + opts, hosts);
    var all := conf + opts + hosts;
    SortBySorts(all, PathOf);
    SortByMembers(all, PathOf);
    SortByDistinct(all, PathOf);
  }
}
