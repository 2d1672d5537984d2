/** The DHCP module's configuration and the rules that bear on addresses (internal/dhcp/config.go,
    internal/dhcp/link.go, internal/dhcp/validate.go). */
module Dhcp {
  import opened Wrappers
  import opened Ordering
  import opened Subnet

  datatype RaMode = Off | Slaac | Stateful

  /** Both addresses invalid means the range is derived from the network. */
  datatype PoolIPv4 = PoolIPv4(start: Addr, end: Addr)
  {
    predicate Explicit() { start != NoAddr || end != NoAddr }
  }

  datatype Pool = Pool(
    network: string,
    ipv4: Option<PoolIPv4>,
    ra: RaMode,
    gateway: Option<Addr>,
    dns: seq<Addr>,
    ntp: seq<Addr>)

  predicate HexDigit(c: char) { '0' <= c <= '9' || 'a' <= c <= 'f' }

  /** Lower-case octets with a colon between them. */
  predicate Octets(mac: string) {
    |mac| % 3 == 2 && forall i :: 0 <= i < |mac| ==> if i % 3 == 2 then mac[i] == ':' else HexDigit(mac[i])
  }

  /** A hardware address as `NormalizeMAC` writes it: six, eight or twenty octets. */
  predicate NormalMac(mac: string) {
    Octets(mac) && (|mac| == 17 || |mac| == 23 || |mac| == 59)
  }

  /** The text of a hardware address, character by character. */
  lemma MacMeans(mac: string)
    ensures NormalMac(mac) <==>
            && (|mac| == 17 || |mac| == 23 || |mac| == 59)
            && forall i :: 0 <= i < |mac| ==> if i % 3 == 2 then mac[i] == ':' else mac[i] in "0123456789abcdef"
  {
    forall c: char
      ensures HexDigit(c) <==> c in "0123456789abcdef"
    {
      HexIs(c);
    }
    hide HexDigit;
  }

  lemma HexIs(c: char)
    ensures HexDigit(c) <==> c in "0123456789abcdef"
  {
    var hex := "0123456789abcdef";
    if '0' <= c <= '9' { assert hex[c as int - '0' as int] == c; }
    if 'a' <= c <= 'f' { assert hex[c as int - 'a' as int + 10] == c; }
  }

  /** A reservation as `Normalize` leaves it: a MAC that parses is in normal form, and any other text is
      kept for validation to refuse. */
  datatype Reservation = Reservation(mac: string, ip: Addr)

  datatype Config = Config(enabled: bool, pools: seq<Pool>, reservations: seq<Reservation>)

  datatype NetworkInfo = NetworkInfo(members: seq<string>, subnet: Prefix, router: Addr)
  {
    predicate HasIPv4() { IPv4(subnet) }

    function DerivedRange(): Option<(Addr, Addr)> {
      if !HasIPv4() then None else SuggestRange(subnet, router)
    }
  }

  /** The read-only view of the link module: the networks there are. */
  type Networks = map<string, NetworkInfo>

  /** A pool's range, typed or derived. */
  function Range(p: Pool, n: NetworkInfo): Option<(Addr, Addr)> {
    if p.ipv4.None? then None
    else if p.ipv4.value.Explicit() then
      if p.ipv4.value.start != NoAddr && p.ipv4.value.end != NoAddr then
        Some((p.ipv4.value.start, p.ipv4.value.end))
      else None
    else n.DerivedRange()
  }

  // ----- what a valid configuration is -----

  /** The pool hands out a range that is safe on its network. */
  ghost predicate SafeRange(p: Pool, n: NetworkInfo) {
    n.HasIPv4() && Range(p, n).Some? && Assignable(n.subnet, n.router, Range(p, n).value.0, Range(p, n).value.1)
  }

  predicate Extras(p: Pool, n: NetworkInfo)
    requires n.HasIPv4()
  {
    && (p.gateway.Some? ==> Contains(n.subnet, p.gateway.value))
    && NoAddr !in p.dns && NoAddr !in p.ntp
  }

  ghost predicate ValidPool(p: Pool, networks: Networks) {
    && p.network != "" && p.network in networks
    && (p.ipv4.None? ==> p.ra != Off)
    && (p.ipv4.Some? ==> SafeRange(p, networks[p.network]) && Extras(p, networks[p.network]))
  }

  /** `a` is handed out by the pool. */
  predicate Serves(p: Pool, networks: Networks, a: Addr) {
    p.network in networks && Range(p, networks[p.network]).Some? &&
    InRange(Range(p, networks[p.network]).value.0, Range(p, networks[p.network]).value.1, a)
  }

  /** Each pool is valid by itself, and no network has two. */
  ghost predicate PoolsAlone(pools: seq<Pool>, networks: Networks) {
    && (forall p <- pools :: ValidPool(p, networks))
    && (forall i, j :: 0 <= i < j < |pools| ==> pools[i].network != pools[j].network)
  }

  ghost predicate ValidPools(c: Config, networks: Networks) {
    && PoolsAlone(c.pools, networks)
    && (forall i, j, a :: 0 <= i < j < |c.pools| && Serves(c.pools[i], networks, a) ==> !Serves(c.pools[j], networks, a))
  }

  ghost predicate OnSomeSubnet(a: Addr, c: Config, networks: Networks) {
    exists p <- c.pools ::
      p.ipv4.Some? && p.network in networks && IPv4(networks[p.network].subnet) && Contains(networks[p.network].subnet, a)
  }

  ghost predicate ValidReservations(c: Config, networks: Networks) {
    && (forall r <- c.reservations :: NormalMac(r.mac) && r.ip.V4? && OnSomeSubnet(r.ip, c, networks))
    && (forall i, j :: 0 <= i < j < |c.reservations| ==>
          c.reservations[i].mac != c.reservations[j].mac && c.reservations[i].ip != c.reservations[j].ip)
  }

  ghost predicate ValidConfig(c: Config, networks: Networks) {
    ValidPools(c, networks) && ValidReservations(c, networks)
  }

  // ----- the code -----

  datatype Problem =
    | NoNetworkName | SecondPool | NoSuchNetwork | ServesNothing
    | NoSubnet | MissingStart | MissingEnd | NotIPv4 | Backwards | NoRange
    | StartOutside | EndOutside | ContainsRouter | ContainsNetwork | ContainsBroadcast
    | BadGateway | BadDns | BadNtp
    | Overlap(first: nat, second: nat)
    | BadMac | SameMac | SameIp | NoIp | NotAnIPv4 | OffSubnet

  /** Three forbidden addresses tested one by one amount to the range being free of them. */
  lemma AssignableChecks(p: Prefix, router: Addr, start: Addr, end: Addr)
    requires IPv4(p) && start.V4? && end.V4?
    ensures Assignable(p, router, start, end) <==>
            && start.n <= end.n && Contains(p, start) && Contains(p, end)
            && !InRange(start, end, router) && !InRange(start, end, Masked(p)) && !InRange(start, end, Broadcast(p).value)
  {
    BlockFits(p);
    ContainsBlock(p, start);
    ContainsBlock(p, end);
    if start.n <= end.n && Contains(p, start) && Contains(p, end) {
      forall a: Addr | InRange(start, end, a)
        ensures Contains(p, a)
      {
        ContainsBlock(p, a);
      }
    }
  }

  /** A range that was typed is the one that is checked: both ends have to be there, and it is safe exactly if it lies
      strictly inside the subnet, the right way round, and leaves out the router. */
  lemma TypedRangeIsSafe(p: Pool, n: NetworkInfo)
    requires p.ipv4.Some? && (p.ipv4.value.start != NoAddr || p.ipv4.value.end != NoAddr)
    ensures var start, end := p.ipv4.value.start, p.ipv4.value.end;
            SafeRange(p, n) <==>
            && IPv4(n.subnet) && start.V4? && end.V4?
            && Masked(n.subnet).n < start.n <= end.n < Broadcast(n.subnet).value.n
            && !(n.router.V4? && start.n <= n.router.n <= end.n)
  {
    if IPv4(n.subnet) { AssignableMeans(n.subnet, n.router, p.ipv4.value.start, p.ipv4.value.end); }
    hide Assignable, Masked, Broadcast;
  }

  /** A typed range is the one that is handed out, from its first address to its last. */
  lemma TypedRangeIsServed(p: Pool, networks: Networks, a: Addr)
    requires p.ipv4.Some? && p.ipv4.value.start.V4? && p.ipv4.value.end.V4?
    ensures Serves(p, networks, a) <==>
            p.network in networks && a.V4? && p.ipv4.value.start.n <= a.n <= p.ipv4.value.end.n
  {}

  /** A range left open is the one the network suggests, and a pool without IPv4 or with half a range serves nothing. */
  lemma OtherRanges(p: Pool, networks: Networks, a: Addr)
    requires p.network in networks
    ensures p.ipv4.None? ==> !Serves(p, networks, a)
    ensures p.ipv4.Some? && (p.ipv4.value.start == NoAddr) != (p.ipv4.value.end == NoAddr) ==> !Serves(p, networks, a)
    ensures p.ipv4 == Some(PoolIPv4(NoAddr, NoAddr)) ==>
              (Serves(p, networks, a) <==>
                 match SuggestRange(networks[p.network].subnet, networks[p.network].router)
                 case None => false
                 case Some((start, end)) => start.V4? && end.V4? && a.V4? && start.n <= a.n <= end.n)
  {
    var n := networks[p.network];
    SuggestRangeRefuses(n.subnet, n.router);
    if IPv4(n.subnet) && n.subnet.bits <= 30 { SuggestRangeExactly(n.subnet, n.router); }
    hide SuggestRange, Masked, Broadcast;
  }

  lemma DerivedIsIPv4(n: NetworkInfo)
    requires n.HasIPv4() && n.DerivedRange().Some?
    ensures Assignable(n.subnet, n.router, n.DerivedRange().value.0, n.DerivedRange().value.1)
  {
    SuggestRangeRefuses(n.subnet, n.router);
    SuggestRangeWorks(n.subnet, n.router);
  }

  /** The checks on one pool's range: no complaint exactly when the range is safe. A range that is returned
      has passed every check but the last three. */
  method ValidateRange(p: Pool, n: NetworkInfo) returns (errors: seq<Problem>, range: Option<(Addr, Addr)>)
    requires p.ipv4.Some?
    ensures errors == [] <==> SafeRange(p, n)
    ensures p.ipv4.value.start != NoAddr || p.ipv4.value.end != NoAddr ==>
              (errors == [] <==> IPv4(n.subnet) && Assignable(n.subnet, n.router, p.ipv4.value.start, p.ipv4.value.end))
    ensures range.Some? ==> n.HasIPv4() && range == Range(p, n) && range.value.0.V4? && range.value.1.V4?
    ensures range.None? ==> errors != []
  {
    var v4 := p.ipv4.value;
    if !n.HasIPv4() { return [NoSubnet], None; }
    if v4.Explicit() && v4.start == NoAddr { return [MissingStart], None; }
    if v4.Explicit() && v4.end == NoAddr { return [MissingEnd], None; }
    if v4.Explicit() && (!v4.start.V4? || !v4.end.V4?) { return [NotIPv4], None; }
    if v4.Explicit() && v4.start.Compare(v4.end) > 0 { return [Backwards], None; }

    range := Range(p, n);
    if range.None? { return [NoRange], None; }
    var (start, end) := range.value;
    if !v4.Explicit() { DerivedIsIPv4(n); }
    AssignableChecks(n.subnet, n.router, start, end);
    hide Assignable;
    if !Contains(n.subnet, start) { return [StartOutside], None; }
    if !Contains(n.subnet, end) { return [EndOutside], None; }
    errors := [];
    if InRange(start, end, n.router) { errors := errors + [ContainsRouter]; }
    if InRange(start, end, Masked(n.subnet)) { errors := errors + [ContainsNetwork]; }
    if InRange(start, end, Broadcast(n.subnet).value) { errors := errors + [ContainsBroadcast]; }
  }

  /** All the checks of one pool's IPv4 half. */
  method ValidatePoolIPv4(p: Pool, n: NetworkInfo) returns (errors: seq<Problem>, range: Option<(Addr, Addr)>)
    ensures errors == [] <==> p.ipv4.None? || (SafeRange(p, n) && Extras(p, n))
    ensures range.Some? ==> n.HasIPv4() && range == Range(p, n) && range.value.0.V4? && range.value.1.V4?
    ensures range.None? ==> p.ipv4.None? || errors != []
    ensures range.Some? ==> p.ipv4.Some?
  {
    if p.ipv4.None? { return [], None; }
    errors, range := ValidateRange(p, n);
    hide SafeRange, Range;
    if range.None? { return; }
    if p.gateway.Some? && !Contains(n.subnet, p.gateway.value) {
      errors := errors + [BadGateway];
    }
    var badDns := InvalidAddresses(p.dns, BadDns);
    var badNtp := InvalidAddresses(p.ntp, BadNtp);
    errors := errors + badDns + badNtp;
  }

  method InvalidAddresses(list: seq<Addr>, problem: Problem) returns (errors: seq<Problem>)
    ensures errors == [] <==> NoAddr !in list
  {
    errors := [];
    for i := 0 to |list|
      invariant errors == [] <==> NoAddr !in list[..i]
    {
      assert list[..i + 1] == list[..i] + [list[i]];
      if list[i] == NoAddr { errors := errors + [problem]; }
    }
    assert list[..|list|] == list;
  }

  // ----- the whole configuration -----

  /** The resolved ranges and the subnets they sit in, by network, of the pools whose range was returned. */
  type Ranges = map<string, (Addr, Addr)>
  type Subnets = map<string, Prefix>

  /** The two tables agree with the pools, once those are known to be valid. */
  ghost predicate Tabled(pools: seq<Pool>, networks: Networks, subnets: Subnets, ranges: Ranges) {
    && subnets.Keys == ranges.Keys
    && (forall p <- pools :: p.network in networks)
    && (forall p <- pools :: p.ipv4.Some? ==>
          && p.network in ranges && Range(p, networks[p.network]) == Some(ranges[p.network])
          && ranges[p.network].0.V4? && ranges[p.network].1.V4?
          && IPv4(networks[p.network].subnet) && subnets[p.network] == networks[p.network].subnet)
    && (forall p <- pools :: p.ipv4.None? ==> p.network !in ranges)
    && (forall name <- ranges :: exists p <- pools :: p.network == name)
  }

  lemma PoolsAloneAppend(pools: seq<Pool>, p: Pool, networks: Networks)
    ensures PoolsAlone(pools + [p], networks) <==>
            PoolsAlone(pools, networks) && ValidPool(p, networks) && forall q <- pools :: q.network != p.network
  {
    hide ValidPool;
    var all := pools + [p];
    assert all[..|pools|] == pools && all[|pools|] == p;
    if PoolsAlone(all, networks) {
      forall q | q in pools
        ensures ValidPool(q, networks) && q.network != p.network
      {
        var i :| 0 <= i < |pools| && pools[i] == q;
        assert all[i] == q && all[i].network != all[|pools|].network;
      }
      forall i, j | 0 <= i < j < |pools|
        ensures pools[i].network != pools[j].network
      {
        assert all[i].network != all[j].network;
      }
    }
  }

  lemma TabledAppend(pools: seq<Pool>, p: Pool, networks: Networks, subnets: Subnets, ranges: Ranges)
    requires Tabled(pools, networks, subnets, ranges)
    requires p.network in networks && forall q <- pools :: q.network != p.network
    ensures p.ipv4.None? ==> Tabled(pools + [p], networks, subnets, ranges)
    ensures p.ipv4.Some? && Range(p, networks[p.network]).Some? && IPv4(networks[p.network].subnet) &&
            Range(p, networks[p.network]).value.0.V4? && Range(p, networks[p.network]).value.1.V4? ==>
              Tabled(pools + [p], networks,
                     subnets[p.network := networks[p.network].subnet],
                     ranges[p.network := Range(p, networks[p.network]).value])
  {
    hide Range;
    assert forall q :: q in pools + [p] <==> q in pools || q == p;
    assert p in pools + [p];
  }

  method ValidatePools(c: Config, networks: Networks) returns (errors: seq<Problem>, subnets: Subnets, ranges: Ranges)
    ensures errors == [] <==> PoolsAlone(c.pools, networks)
    ensures errors == [] ==> Tabled(c.pools, networks, subnets, ranges)
    ensures forall name <- subnets :: IPv4(subnets[name])
  {
    errors, subnets, ranges := [], map[], map[];
    var seen: set<string> := {};
    hide SafeRange, Range, Extras, Tabled, PoolsAlone;
    assert PoolsAlone([], networks) && Tabled([], networks, map[], map[]) by { NoPools(networks); }
    for i := 0 to |c.pools|
      invariant errors == [] ==> forall name :: name in seen <==> exists p <- c.pools[..i] :: p.network == name
      invariant errors == [] <==> PoolsAlone(c.pools[..i], networks)
      invariant errors == [] ==> Tabled(c.pools[..i], networks, subnets, ranges)
      invariant forall name <- subnets :: IPv4(subnets[name])
    {
      var p := c.pools[i];
      assert c.pools[..i + 1] == c.pools[..i] + [p];
      PoolsAloneAppend(c.pools[..i], p, networks);
      if p.network == "" {
        errors := errors + [NoNetworkName];
        continue;
      }
      if p.network in seen {
        errors := errors + [SecondPool];
        continue;
      }
      seen := seen + {p.network};
      if p.network !in networks {
        errors := errors + [NoSuchNetwork];
        continue;
      }
      var info := networks[p.network];
      if errors == [] { TabledAppend(c.pools[..i], p, networks, subnets, ranges); }
      if p.ipv4.None? && p.ra == Off {
        errors := errors + [ServesNothing];
      }
      var found, range := ValidatePoolIPv4(p, info);
      errors := errors + found;
      if range.Some? {
        subnets := subnets[p.network := info.subnet];
        ranges := ranges[p.network := range.value];
      }
    }
    assert c.pools[..|c.pools|] == c.pools;
  }

  lemma NoPools(networks: Networks)
    ensures PoolsAlone([], networks) && Tabled([], networks, map[], map[])
  {}

  predicate Overlapping(a: (Addr, Addr), b: (Addr, Addr)) {
    a.0.Compare(b.1) <= 0 && b.0.Compare(a.1) <= 0
  }

  method ValidateOverlaps(c: Config, ranges: Ranges) returns (errors: seq<Problem>)
    ensures errors == [] <==>
            forall i, j :: 0 <= i < j < |c.pools| && c.pools[i].network in ranges && c.pools[j].network in ranges ==>
              !Overlapping(ranges[c.pools[i].network], ranges[c.pools[j].network])
  {
    errors := [];
    for i := 0 to |c.pools|
      invariant errors == [] <==>
                forall a, b :: 0 <= a < i && a < b < |c.pools| && c.pools[a].network in ranges && c.pools[b].network in ranges ==>
                  !Overlapping(ranges[c.pools[a].network], ranges[c.pools[b].network])
    {
      if c.pools[i].network !in ranges { continue; }
      ghost var before := errors;
      for j := i + 1 to |c.pools|
        invariant before != [] ==> errors != []
        invariant before == [] ==> (errors == [] <==>
                    forall b :: i < b < j && c.pools[b].network in ranges ==>
                      !Overlapping(ranges[c.pools[i].network], ranges[c.pools[b].network]))
      {
        if c.pools[j].network !in ranges { continue; }
        if Overlapping(ranges[c.pools[i].network], ranges[c.pools[j].network]) {
          errors := errors + [Overlap(i, j)];
        }
      }
    }
  }

  ghost predicate InSomeSubnet(a: Addr, subnets: Subnets) {
    exists name <- subnets :: IPv4(subnets[name]) && Contains(subnets[name], a)
  }

  method ValidateReservations(c: Config, subnets: Subnets) returns (errors: seq<Problem>)
    requires forall name <- subnets :: IPv4(subnets[name])
    ensures errors == [] <==>
            && (forall r <- c.reservations :: NormalMac(r.mac) && r.ip.V4? && InSomeSubnet(r.ip, subnets))
            && (forall i, j :: 0 <= i < j < |c.reservations| ==>
                  c.reservations[i].mac != c.reservations[j].mac && c.reservations[i].ip != c.reservations[j].ip)
  {
    errors := [];
    var macs: set<string> := {};
    var ips: set<Addr> := {};
    for i := 0 to |c.reservations|
      invariant errors == [] ==> macs == (set k | 0 <= k < i :: c.reservations[k].mac)
      invariant errors == [] ==> ips == (set k | 0 <= k < i :: c.reservations[k].ip)
      invariant errors == [] <==>
                && (forall k :: 0 <= k < i ==> NormalMac(c.reservations[k].mac) && c.reservations[k].ip.V4? && InSomeSubnet(c.reservations[k].ip, subnets))
                && (forall a, b :: 0 <= a < b < i ==>
                      c.reservations[a].mac != c.reservations[b].mac && c.reservations[a].ip != c.reservations[b].ip)
    {
      var r := c.reservations[i];
      if !NormalMac(r.mac) {
        errors := errors + [BadMac];
      } else if r.mac in macs {
        errors := errors + [SameMac];
      } else {
        macs := macs + {r.mac};
      }
      if r.ip == NoAddr {
        errors := errors + [NoIp];
      } else if !r.ip.V4? {
        errors := errors + [NotAnIPv4];
      } else {
        if r.ip in ips {
          errors := errors + [SameIp];
        }
        ips := ips + {r.ip};
        var on := OnSubnet(r.ip, subnets);
        if !on {
          errors := errors + [OffSubnet];
        }
      }
    }
  }

  method OnSubnet(a: Addr, subnets: Subnets) returns (found: bool)
    requires forall name <- subnets :: IPv4(subnets[name])
    ensures found <==> InSomeSubnet(a, subnets)
  {
    found := false;
    var todo := subnets.Keys;
    while todo != {} && !found
      invariant todo <= subnets.Keys
      invariant found <==> exists name :: name in subnets.Keys - todo && Contains(subnets[name], a)
      decreases todo
    {
      var name :| name in todo;
      todo := todo - {name};
      found := Contains(subnets[name], a);
    }
  }

  lemma OverlapMeans(p: Pool, q: Pool, networks: Networks, ranges: Ranges)
    requires p.network in networks && q.network in networks && p.network in ranges && q.network in ranges
    requires Range(p, networks[p.network]) == Some(ranges[p.network]) && Range(q, networks[q.network]) == Some(ranges[q.network])
    requires ranges[p.network].0.V4? && ranges[p.network].1.V4? && ranges[p.network].0.n <= ranges[p.network].1.n
    requires ranges[q.network].0.V4? && ranges[q.network].1.V4? && ranges[q.network].0.n <= ranges[q.network].1.n
    ensures Overlapping(ranges[p.network], ranges[q.network]) <==> exists a :: Serves(p, networks, a) && Serves(q, networks, a)
  {
    if Overlapping(ranges[p.network], ranges[q.network]) {
      var a := if ranges[p.network].0.n >= ranges[q.network].0.n then ranges[p.network].0 else ranges[q.network].0;
      assert Serves(p, networks, a) && Serves(q, networks, a);
    }
  }

  lemma OverlapsMean(c: Config, networks: Networks, subnets: Subnets, ranges: Ranges)
    requires PoolsAlone(c.pools, networks) && Tabled(c.pools, networks, subnets, ranges)
    ensures (forall i, j :: 0 <= i < j < |c.pools| && c.pools[i].network in ranges && c.pools[j].network in ranges ==>
              !Overlapping(ranges[c.pools[i].network], ranges[c.pools[j].network])) <==> ValidPools(c, networks)
  {
    hide Overlapping, Serves, Range, Assignable, Extras;
    forall i, j | 0 <= i < j < |c.pools|
      ensures c.pools[i].network in ranges && c.pools[j].network in ranges ==>
                (Overlapping(ranges[c.pools[i].network], ranges[c.pools[j].network]) <==>
                 exists a :: Serves(c.pools[i], networks, a) && Serves(c.pools[j], networks, a))
      ensures c.pools[i].network !in ranges || c.pools[j].network !in ranges ==>
                forall a :: !(Serves(c.pools[i], networks, a) && Serves(c.pools[j], networks, a))
    {
      var p, q := c.pools[i], c.pools[j];
      assert p in c.pools && q in c.pools;
      if p.network in ranges && q.network in ranges {
        Forward(p, networks);
        Forward(q, networks);
        OverlapMeans(p, q, networks, ranges);
      } else {
        forall a
          ensures !(Serves(p, networks, a) && Serves(q, networks, a))
        {
          ServesMeans(p, networks, a);
          ServesMeans(q, networks, a);
        }
      }
    }
  }

  lemma Forward(p: Pool, networks: Networks)
    requires p.network in networks && p.ipv4.Some? && SafeRange(p, networks[p.network])
    ensures var r := Range(p, networks[p.network]).value; r.0.V4? && r.1.V4? && r.0.n <= r.1.n
  {}

  lemma ServesMeans(p: Pool, networks: Networks, a: Addr)
    ensures Serves(p, networks, a) ==> p.ipv4.Some?
  {}

  lemma SubnetsMean(a: Addr, c: Config, networks: Networks, subnets: Subnets, ranges: Ranges)
    requires Tabled(c.pools, networks, subnets, ranges)
    ensures InSomeSubnet(a, subnets) <==> OnSomeSubnet(a, c, networks)
  {
    hide Range;
  }

  /** Validation accepts a configuration exactly when it is valid. */
  method Validate(c: Config, networks: Networks) returns (errors: seq<Problem>)
    ensures errors == [] <==> ValidConfig(c, networks)
  {
    hide PoolsAlone, Tabled, Overlapping, InSomeSubnet, OnSomeSubnet, Serves;
    var ranges: Ranges, subnets: Subnets;
    errors, subnets, ranges := ValidatePools(c, networks);
    if errors == [] {
      OverlapsMean(c, networks, subnets, ranges);
      forall r | r in c.reservations {
        SubnetsMean(r.ip, c, networks, subnets, ranges);
      }
    }
    var overlaps := ValidateOverlaps(c, ranges);
    var reserved := ValidateReservations(c, subnets);
    errors := errors + overlaps + reserved;
  }

  /** A pool whose range is left to be derived draws no complaint about it, on any network with room for hosts
      and wherever the router is. */
  lemma DerivedRangeIsSafe(p: Pool, n: NetworkInfo)
    requires p.ipv4.Some? && !p.ipv4.value.Explicit()
    ensures SafeRange(p, n) <==> n.HasIPv4() && n.subnet.bits <= 30
  {
    if n.HasIPv4() {
      SuggestRangeRefuses(n.subnet, n.router);
      if n.subnet.bits <= 30 { SuggestRangeWorks(n.subnet, n.router); }
    }
  }
}
