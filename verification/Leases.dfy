/** Lease accounting (internal/dhcp/leases.go) and the lease ceiling written into the rendered
    configuration (`leaseMax` in internal/dhcp/render.go). */
module Leases {
  import opened Wrappers
  import opened Subnet
  import opened Dhcp

  /** `expires` is 0 for a lease that never does. */
  datatype Lease = Lease(expires: int, mac: string, ip: Addr)
  {
    predicate Active(now: int) { expires == 0 || expires > now }
  }

  datatype Usage = Usage(size: nat, active: nat, expired: nat)
  {
    function Free(): int { size - active }
    function Percent(): int { if size == 0 then 0 else active * 100 / size }
  }

  // ----- counting addresses -----

  function Interval(a: int, b: int): (s: set<int>)
    ensures forall n :: n in s <==> a <= n <= b
    decreases b + 1 - a
  {
    if a > b then {} else Interval(a, b - 1) + {b}
  }

  lemma {:induction false} IntervalSize(a: int, b: int)
    requires a <= b + 1
    ensures |Interval(a, b)| == b + 1 - a
    decreases b + 1 - a
  {
    if a <= b { IntervalSize(a, b - 1); }
  }

  /** The numbers of the IPv4 addresses from `start` to `end`. */
  function Span(start: Addr, end: Addr): set<int> {
    if start.V4? && end.V4? then Interval(start.n, end.n) else {}
  }

  lemma {:induction false} SubsetSize<T>(a: set<T>, b: set<T>)
    requires a <= b
    ensures |a| <= |b|
  {
    if a != {} {
      var x :| x in a;
      SubsetSize(a - {x}, b - {x});
    }
  }

  lemma {:induction false} UnionSize<T>(a: set<T>, b: set<T>)
    ensures |a + b| <= |a| + |b|
  {
    if b == {} {
      assert a + b == a;
    } else {
      var x :| x in b;
      UnionSize(a, b - {x});
      assert a + b == (a + (b - {x})) + {x};
    }
  }

  lemma NoInterval(a: int, b: int)
    requires a > b
    ensures Interval(a, b) == {}
  {}

  /** `RangeSize` is the number of addresses in the range, unless the range is the whole address space. */
  lemma RangeSizeIsCount(start: Addr, end: Addr)
    ensures RangeSize(start, end) == |Span(start, end)| <==>
            !(start == V4(0) && end == V4(TWO32 - 1))
  {
    hide Interval;
    if start.V4? && end.V4? { RangeSizeCounts(start, end); }
    if start.V4? && end.V4? && start.n <= end.n {
      IntervalSize(start.n, end.n);
    } else if start.V4? && end.V4? {
      NoInterval(start.n, end.n);
    }
  }

  // ----- usage of one pool -----

  function LeasesWithin(leases: seq<Lease>, start: Addr, end: Addr): seq<Lease> {
    if leases == [] then []
    else
      var init := LeasesWithin(leases[..|leases| - 1], start, end);
      var l := leases[|leases| - 1];
      if InRange(start, end, l.ip) then init + [l] else init
  }

  function CountActive(leases: seq<Lease>, now: int): nat {
    if leases == [] then 0
    else CountActive(leases[..|leases| - 1], now) + if leases[|leases| - 1].Active(now) then 1 else 0
  }

  /** What is counted, lease by lease: those between the two ends, and among them those that never expire or expire
      later. */
  lemma LeasesCount(a: seq<Lease>, b: seq<Lease>, l: Lease, start: Addr, end: Addr, now: int)
    requires start.V4? && end.V4?
    ensures LeasesWithin(a + b, start, end) == LeasesWithin(a, start, end) + LeasesWithin(b, start, end)
    ensures LeasesWithin([l], start, end) == if l.ip.V4? && start.n <= l.ip.n <= end.n then [l] else []
    ensures CountActive(a + b, now) == CountActive(a, now) + CountActive(b, now)
    ensures CountActive([l], now) == if l.expires == 0 || l.expires > now then 1 else 0
  {
    LeasesStep([], l, start, end, now);
    assert [] + [l] == [l];
    hide LeasesWithin, CountActive;
    WithinConcat(a, b, start, end);
    ActiveConcat(a, b, now);
  }

  lemma {:induction false} WithinConcat(a: seq<Lease>, b: seq<Lease>, start: Addr, end: Addr)
    ensures LeasesWithin(a + b, start, end) == LeasesWithin(a, start, end) + LeasesWithin(b, start, end)
    decreases |b|
  {
    if b == [] {
      assert a + b == a;
    } else {
      var init, last := b[..|b| - 1], b[|b| - 1];
      LeasesStep(a + init, last, start, end, 0);
      LeasesStep(init, last, start, end, 0);
      assert a + b == (a + init) + [last] && b == init + [last];
      hide LeasesWithin, InRange;
      WithinConcat(a, init, start, end);
    }
  }

  lemma {:induction false} ActiveConcat(a: seq<Lease>, b: seq<Lease>, now: int)
    ensures CountActive(a + b, now) == CountActive(a, now) + CountActive(b, now)
    decreases |b|
  {
    if b == [] {
      assert a + b == a;
    } else {
      var init, last := b[..|b| - 1], b[|b| - 1];
      assert (a + b)[..|a + b| - 1] == a + init;
      ActiveConcat(a, init, now);
    }
  }

  lemma LeasesStep(init: seq<Lease>, l: Lease, start: Addr, end: Addr, now: int)
    ensures LeasesWithin(init + [l], start, end) == LeasesWithin(init, start, end) + if InRange(start, end, l.ip) then [l] else []
    ensures CountActive(init + [l], now) == CountActive(init, now) + if l.Active(now) then 1 else 0
    ensures LeasesWithin([], start, end) == [] && CountActive([], now) == 0
  {
    assert (init + [l])[..|init|] == init;
  }

  method UsageOf(p: Pool, n: NetworkInfo, leases: seq<Lease>, now: int) returns (u: Usage)
    ensures match Range(p, n)
            case None => u == Usage(0, 0, 0)
            case Some((start, end)) =>
              var within := LeasesWithin(leases, start, end);
              u.size == RangeSize(start, end) && u.active == CountActive(within, now) && u.active + u.expired == |within|
  {
    var range := Range(p, n);
    if range.None? {
      return Usage(0, 0, 0);
    }
    var (start, end) := range.value;
    var active, expired: nat := 0, 0;
    for i := 0 to |leases|
      invariant active == CountActive(LeasesWithin(leases[..i], start, end), now)
      invariant active + expired == |LeasesWithin(leases[..i], start, end)|
    {
      assert leases[..i + 1][..i] == leases[..i];
      ghost var within := LeasesWithin(leases[..i], start, end);
      assert (within + [leases[i]])[..|within|] == within;
      if !InRange(start, end, leases[i].ip) { continue; }
      if leases[i].Active(now) {
        active := active + 1;
      } else {
        expired := expired + 1;
      }
    }
    assert leases[..|leases|] == leases;
    u := Usage(RangeSize(start, end), active, expired);
  }

  ghost predicate DistinctAddresses(leases: seq<Lease>) {
    forall i, j :: 0 <= i < j < |leases| ==> leases[i].ip != leases[j].ip
  }

  /** The addresses of the leases within an IPv4 range, one for each of them. */
  lemma {:induction false} WithinAddresses(leases: seq<Lease>, start: Addr, end: Addr) returns (taken: set<int>)
    requires DistinctAddresses(leases) && start.V4? && end.V4?
    ensures |taken| == |LeasesWithin(leases, start, end)| && taken <= Span(start, end)
    ensures forall n <- taken :: exists l <- leases :: l.ip.V4? && l.ip.n == n
  {
    if leases == [] {
      taken := {};
    } else {
      var init := leases[..|leases| - 1];
      var l := leases[|leases| - 1];
      taken := WithinAddresses(init, start, end);
      forall n | n in taken
        ensures exists m <- leases :: m.ip.V4? && m.ip.n == n
      {
        var m :| m in init && m.ip.V4? && m.ip.n == n;
        assert m in leases;
      }
      if InRange(start, end, l.ip) {
        assert l in leases;
        assert l.ip.n !in taken;
        taken := taken + {l.ip.n};
      }
    }
  }

  /** On a safe range, leases of different addresses never outnumber the pool, so its free count is not
      negative and its use is at most full. */
  lemma UsageIsBounded(p: Pool, n: NetworkInfo, leases: seq<Lease>, now: int, u: Usage)
    requires SafeRange(p, n) && DistinctAddresses(leases)
    requires var (start, end) := Range(p, n).value;
             var within := LeasesWithin(leases, start, end);
             u.size == RangeSize(start, end) && u.active == CountActive(within, now) && u.active + u.expired == |within|
    ensures u.active + u.expired <= u.size
    ensures u.Free() >= 0 && 0 <= u.Percent() <= 100
    ensures u.active + u.Free() == u.size
    ensures u.size > 0 ==> u.Percent() * u.size <= 100 * u.active < (u.Percent() + 1) * u.size
  {
    SafeIsNotEverything(p, n);
    hide SafeRange, Range, CountActive, LeasesWithin, Usage.Percent;
    var (start, end) := Range(p, n).value;
    var taken := WithinAddresses(leases, start, end);
    RangeSizeIsCount(start, end);
    SubsetSize(taken, Span(start, end));
    PercentIs(u);
  }

  lemma PercentIs(u: Usage)
    requires u.active <= u.size
    ensures 0 <= u.Percent() <= 100
    ensures u.size > 0 ==> u.Percent() * u.size <= 100 * u.active < (u.Percent() + 1) * u.size
  {
    if u.size > 0 { PercentBound(u.active, u.size); }
  }

  lemma PercentBound(active: nat, size: nat)
    requires active <= size && size > 0
    ensures 0 <= active * 100 / size <= 100
    ensures active * 100 / size * size <= 100 * active < (active * 100 / size + 1) * size
  {
    assert active * 100 <= size * 100;
    var q := active * 100 / size;
    assert active * 100 == q * size + active * 100 % size;
    if q > 100 {
      MulMonotone(101, q, size);
    }
  }

  /** A safe range leaves out the network address, so it is never the whole address space. */
  lemma SafeIsNotEverything(p: Pool, n: NetworkInfo)
    requires SafeRange(p, n)
    ensures var (start, end) := Range(p, n).value;
            start.V4? && end.V4? && start.n <= end.n && !(start == V4(0) && end == V4(TWO32 - 1))
  {
    var (start, end) := Range(p, n).value;
    if start == V4(0) && end == V4(TWO32 - 1) {
      assert InRange(start, end, Masked(n.subnet));
    }
  }

  // ----- the lease ceiling -----

  const DEFAULT_LEASE_MAX := 1000
  const STATEFUL_RA_SIZE := 0x100

  function Max(a: int, b: int): int { if a < b then b else a }

  /** What one pool adds to the ceiling. */
  function PoolLeases(p: Pool, networks: Networks): nat {
    (if p.network in networks && Range(p, networks[p.network]).Some? then
       RangeSize(Range(p, networks[p.network]).value.0, Range(p, networks[p.network]).value.1)
     else 0) +
    if p.ra == Stateful then STATEFUL_RA_SIZE else 0
  }

  function TotalLeases(pools: seq<Pool>, networks: Networks): nat {
    if pools == [] then 0 else TotalLeases(pools[..|pools| - 1], networks) + PoolLeases(pools[|pools| - 1], networks)
  }

  function LeaseCeiling(c: Config, networks: Networks): nat {
    Max(|c.reservations| + TotalLeases(c.pools, networks), DEFAULT_LEASE_MAX)
  }

  method LeaseMax(c: Config, networks: Networks) returns (ceiling: nat)
    ensures ceiling == LeaseCeiling(c, networks)
  {
    var total: nat := |c.reservations|;
    for i := 0 to |c.pools|
      invariant total == |c.reservations| + TotalLeases(c.pools[..i], networks)
    {
      assert c.pools[..i + 1][..i] == c.pools[..i];
      var p := c.pools[i];
      if p.network in networks {
        var range := Range(p, networks[p.network]);
        if range.Some? {
          total := total + RangeSize(range.value.0, range.value.1);
        }
      }
      if p.ra == Stateful {
        total := total + STATEFUL_RA_SIZE;
      }
    }
    assert c.pools[..|c.pools|] == c.pools;
    ceiling := Max(total, DEFAULT_LEASE_MAX);
  }

  /** What the ceiling is made of: one lease for every reservation, for every address a pool hands out, and 256 for
      every stateful pool, and never under a thousand. */
  lemma {:induction false} CeilingIs(c: Config, a: seq<Pool>, b: seq<Pool>, p: Pool, networks: Networks)
    requires ValidPool(p, networks)
    ensures LeaseCeiling(c, networks) ==
            var total := |c.reservations| + TotalLeases(c.pools, networks); if total < 1000 then 1000 else total
    ensures TotalLeases(a + b, networks) == TotalLeases(a, networks) + TotalLeases(b, networks)
    ensures TotalLeases([p], networks) == |PoolAddresses(p, networks)| + if p.ra == Stateful then 256 else 0
    decreases |b|
  {
    assert [p][..0] == [];
    if p.ipv4.Some? {
      SafeIsNotEverything(p, networks[p.network]);
      RangeSizeIsCount(Range(p, networks[p.network]).value.0, Range(p, networks[p.network]).value.1);
    }
    hide SafeRange, Range, RangeSize, ValidPool, PoolLeases;
    if b == [] {
      assert a + b == a;
    } else {
      assert (a + b)[..|a + b| - 1] == a + b[..|b| - 1];
      CeilingIs(c, a, b[..|b| - 1], p, networks);
    }
  }

  /** The IPv4 addresses a pool hands out. */
  function PoolAddresses(p: Pool, networks: Networks): set<int> {
    if p.network in networks && Range(p, networks[p.network]).Some? then
      Span(Range(p, networks[p.network]).value.0, Range(p, networks[p.network]).value.1)
    else {}
  }

  function AllPoolAddresses(pools: seq<Pool>, networks: Networks): set<int> {
    if pools == [] then {}
    else AllPoolAddresses(pools[..|pools| - 1], networks) + PoolAddresses(pools[|pools| - 1], networks)
  }

  function ReservedAddresses(rs: seq<Reservation>): set<int> {
    if rs == [] then {}
    else ReservedAddresses(rs[..|rs| - 1]) + if rs[|rs| - 1].ip.V4? then {rs[|rs| - 1].ip.n} else {}
  }

  lemma {:induction false} ReservedCount(rs: seq<Reservation>)
    ensures |ReservedAddresses(rs)| <= |rs|
  {
    if rs != [] {
      ReservedCount(rs[..|rs| - 1]);
      UnionSize(ReservedAddresses(rs[..|rs| - 1]), if rs[|rs| - 1].ip.V4? then {rs[|rs| - 1].ip.n} else {});
    }
  }

  lemma {:induction false} PoolCount(pools: seq<Pool>, networks: Networks)
    requires forall p <- pools :: ValidPool(p, networks)
    ensures |AllPoolAddresses(pools, networks)| <= TotalLeases(pools, networks)
  {
    if pools != [] {
      var p := pools[|pools| - 1];
      PoolCount(pools[..|pools| - 1], networks);
      UnionSize(AllPoolAddresses(pools[..|pools| - 1], networks), PoolAddresses(p, networks));
      assert ValidPool(p, networks);
      if p.ipv4.Some? {
        SafeIsNotEverything(p, networks[p.network]);
        RangeSizeIsCount(Range(p, networks[p.network]).value.0, Range(p, networks[p.network]).value.1);
      }
    }
  }

  /** The ceiling is never below the number of different IPv4 addresses a valid configuration can lease. */
  lemma CeilingCoversIPv4(c: Config, networks: Networks)
    requires ValidConfig(c, networks)
    ensures |AllPoolAddresses(c.pools, networks) + ReservedAddresses(c.reservations)| <= LeaseCeiling(c, networks)
  {
    PoolCount(c.pools, networks);
    ReservedCount(c.reservations);
    UnionSize(AllPoolAddresses(c.pools, networks), ReservedAddresses(c.reservations));
  }

  /** The DHCPv6 addresses the rendered file offers: one stateful range for each member of the network. */
  function StatefulAddresses(pools: seq<Pool>, networks: Networks): nat {
    if pools == [] then 0
    else
      var p := pools[|pools| - 1];
      StatefulAddresses(pools[..|pools| - 1], networks) +
      if p.ra == Stateful && p.network in networks then STATEFUL_RA_SIZE * |networks[p.network].members| else 0
  }

  function StatefulCounted(pools: seq<Pool>): nat {
    if pools == [] then 0
    else StatefulCounted(pools[..|pools| - 1]) + if pools[|pools| - 1].ra == Stateful then STATEFUL_RA_SIZE else 0
  }

  lemma {:induction false} StatefulIsCounted(pools: seq<Pool>, networks: Networks)
    ensures StatefulCounted(pools) <= TotalLeases(pools, networks)
  {
    if pools != [] { StatefulIsCounted(pools[..|pools| - 1], networks); }
  }

  /** The members of the networks of the stateful pools, and how many of those pools there are. A pool of a network
      that is not there is written for no member. */
  function StatefulMembers(pools: seq<Pool>, networks: Networks): nat {
    if pools == [] then 0
    else
      var p := pools[|pools| - 1];
      StatefulMembers(pools[..|pools| - 1], networks) +
      if p.ra == Stateful && p.network in networks then |networks[p.network].members| else 0
  }

  function StatefulPools(pools: seq<Pool>): nat {
    if pools == [] then 0 else StatefulPools(pools[..|pools| - 1]) + if pools[|pools| - 1].ra == Stateful then 1 else 0
  }

  lemma {:induction false} StatefulTotals(pools: seq<Pool>, networks: Networks)
    ensures StatefulAddresses(pools, networks) == STATEFUL_RA_SIZE * StatefulMembers(pools, networks)
    ensures StatefulCounted(pools) == STATEFUL_RA_SIZE * StatefulPools(pools)
  {
    if pools != [] { StatefulTotals(pools[..|pools| - 1], networks); }
  }

  /** The code's comment calls the total a true upper bound. For DHCPv6 a range is written for each member of a
      network but counted once for its pool, so the bound holds exactly while the stateful networks have no more
      members than there are stateful pools, or everything still fits under the default ceiling. */
  lemma StatefulBoundHolds(c: Config, networks: Networks)
    ensures var others := |c.reservations| + TotalLeases(c.pools, networks) - StatefulCounted(c.pools);
            others + StatefulAddresses(c.pools, networks) <= LeaseCeiling(c, networks) <==>
            StatefulMembers(c.pools, networks) <= StatefulPools(c.pools) ||
            others + STATEFUL_RA_SIZE * StatefulMembers(c.pools, networks) <= DEFAULT_LEASE_MAX
  {
    StatefulTotals(c.pools, networks);
    hide TotalLeases, StatefulAddresses, StatefulMembers, StatefulCounted, StatefulPools;
  }

  /** A valid configuration whose rendered ranges offer more DHCPv6 addresses than its ceiling: one network on
      four interfaces. */
  lemma StatefulBoundFails()
    ensures exists c, networks :: ValidConfig(c, networks) && StatefulAddresses(c.pools, networks) > LeaseCeiling(c, networks)
  {
    var p := Pool("lan", None, Stateful, None, [], []);
    var networks: Networks := map["lan" := NetworkInfo(["a", "b", "c", "d"], Prefix(NoAddr, 0), NoAddr)];
    var c := Config(true, [p], []);
    assert c.pools[..0] == [];
    assert TotalLeases(c.pools, networks) == STATEFUL_RA_SIZE;
    assert StatefulAddresses(c.pools, networks) == STATEFUL_RA_SIZE * 4;
    assert ValidPool(p, networks);
    assert ValidConfig(c, networks);
  }
}
