/** Which clients a configuration takes an address away from (`Dropped` and `servedBy` in
    internal/dhcp/plan.go), and what adding a reservation changes (`SetReservation` in internal/dhcp/config.go). */
module Dropped {
  import opened Wrappers
  import opened Ordering
  import opened Subnet
  import opened Dhcp
  import opened Leases

  // ----- what it means to keep an address -----

  /** The position of the first reservation for a MAC, or the length if there is none. */
  function IndexOf(rs: seq<Reservation>, mac: string): (i: nat)
    ensures i <= |rs| && (i < |rs| ==> rs[i].mac == mac)
    ensures forall k :: 0 <= k < i ==> rs[k].mac != mac
  {
    IndexBy(rs, MacOf, mac)
  }

  ghost predicate ReservedMac(c: Config, mac: string) {
    exists r <- c.reservations :: r.mac == mac
  }

  ghost predicate ReservedIp(c: Config, ip: Addr) {
    exists r <- c.reservations :: r.ip == ip
  }

  ghost predicate Pinned(c: Config, mac: string, ip: Addr) {
    exists r <- c.reservations :: r.mac == mac && r.ip == ip
  }

  ghost predicate Pooled(c: Config, networks: Networks, ip: Addr) {
    exists p <- c.pools :: Serves(p, networks, ip)
  }

  /** The client keeps the address: the first reservation for its MAC names it, or nobody has a claim on the
      client or the address and a pool covers the address. */
  ghost predicate Keeps(c: Config, networks: Networks, l: Lease) {
    var i := IndexOf(c.reservations, l.mac);
    if l.mac != "" && i < |c.reservations| then c.reservations[i].ip == l.ip
    else !ReservedIp(c, l.ip) && Pooled(c, networks, l.ip)
  }

  ghost predicate Lost(c: Config, networks: Networks, l: Lease, now: int) {
    l.Active(now) && (!c.enabled || (l.ip.V4? && !Keeps(c, networks, l)))
  }

  ghost function LostAmong(c: Config, networks: Networks, leases: seq<Lease>, now: int): seq<Lease> {
    if leases == [] then []
    else
      var init := LostAmong(c, networks, leases[..|leases| - 1], now);
      var l := leases[|leases| - 1];
      if Lost(c, networks, l, now) then init + [l] else init
  }

  function MacOf(r: Reservation): string { r.mac }

  ghost predicate DistinctMacs(c: Config) {
    DistinctBy(c.reservations, MacOf)
  }

  // ----- the code -----

  /** The search stops at the first reservation for the client's MAC, whichever address it names. */
  method ServedBy(c: Config, networks: Networks, l: Lease) returns (served: bool)
    ensures served <==> Keeps(c, networks, l)
  {
    if l.mac != "" {
      for i := 0 to |c.reservations|
        invariant forall k :: 0 <= k < i ==> c.reservations[k].mac != l.mac
      {
        if c.reservations[i].mac == l.mac {
          return c.reservations[i].ip == l.ip;
        }
      }
    }
    for i := 0 to |c.reservations|
      invariant forall k :: 0 <= k < i ==> c.reservations[k].ip != l.ip
    {
      if c.reservations[i].ip == l.ip {
        return false;
      }
    }
    for i := 0 to |c.pools|
      invariant forall k :: 0 <= k < i ==> !Serves(c.pools[k], networks, l.ip)
    {
      var p := c.pools[i];
      assert p in c.pools;
      if p.network !in networks { continue; }
      var range := Range(p, networks[p.network]);
      if range.Some? && InRange(range.value.0, range.value.1, l.ip) {
        assert Serves(p, networks, l.ip);
        return true;
      }
    }
    return false;
  }

  method DroppedBy(c: Config, networks: Networks, leases: seq<Lease>, now: int) returns (dropped: seq<Lease>)
    ensures dropped == LostAmong(c, networks, leases, now)
  {
    dropped := [];
    for i := 0 to |leases|
      invariant dropped == LostAmong(c, networks, leases[..i], now)
    {
      assert leases[..i + 1][..i] == leases[..i];
      var l := leases[i];
      if !l.Active(now) { continue; }
      if !c.enabled {
        dropped := dropped + [l];
        continue;
      }
      if !l.ip.V4? { continue; }
      var served := ServedBy(c, networks, l);
      if served { continue; }
      dropped := dropped + [l];
    }
    assert leases[..|leases|] == leases;
  }

  /** Who is dropped, lease by lease: switching the service off drops every active lease, whatever its family; and
      while it is on, an active IPv4 lease is dropped exactly if its client does not keep the address. */
  lemma {:induction false} DroppedAre(c: Config, networks: Networks, a: seq<Lease>, b: seq<Lease>, l: Lease, now: int)
    ensures LostAmong(c, networks, a + b, now) == LostAmong(c, networks, a, now) + LostAmong(c, networks, b, now)
    ensures var active := l.expires == 0 || l.expires > now;
            LostAmong(c, networks, [l], now) ==
            if active && (!c.enabled || (l.ip.V4? && !Keeps(c, networks, l))) then [l] else []
    decreases |b|
  {
    hide Keeps;
    assert [l][..0] == [];
    assert LostAmong(c, networks, [], now) == [];
    if b == [] {
      assert a + b == a;
    } else {
      var init, last := b[..|b| - 1], b[|b| - 1];
      assert (a + b)[..|a + b| - 1] == a + init;
      DroppedAre(c, networks, a, init, l, now);
      assert LostAmong(c, networks, a, now) + (LostAmong(c, networks, init, now) + [last]) ==
             LostAmong(c, networks, a, now) + LostAmong(c, networks, init, now) + [last];
    }
  }

  // ----- order does not matter -----

  lemma SameMembers<T>(a: seq<T>, b: seq<T>)
    requires multiset(a) == multiset(b)
    ensures forall x :: x in a <==> x in b
  {
    forall x
      ensures x in a <==> x in b
    {
      assert x in a <==> x in multiset(a);
      assert x in b <==> x in multiset(b);
    }
  }

  /** Where no two reservations share a MAC, the first one for it is the only one. */
  lemma KeepsUnordered(c: Config, networks: Networks, l: Lease)
    requires DistinctMacs(c)
    ensures Keeps(c, networks, l) <==>
            if l.mac != "" && ReservedMac(c, l.mac) then Pinned(c, l.mac, l.ip)
            else !ReservedIp(c, l.ip) && Pooled(c, networks, l.ip)
  {
    hide Serves;
    var i := IndexOf(c.reservations, l.mac);
    if i < |c.reservations| {
      assert c.reservations[i] in c.reservations;
      forall r | r in c.reservations && r.mac == l.mac
        ensures r == c.reservations[i]
      {
        var k :| 0 <= k < |c.reservations| && c.reservations[k] == r;
        assert k >= i;
      }
    }
  }

  /** Listing the pools and the reservations of a valid configuration in another order drops the same leases. */
  lemma {:induction false} OrderIrrelevant(c: Config, d: Config, networks: Networks, leases: seq<Lease>, now: int)
    requires c.enabled == d.enabled && DistinctMacs(c) && DistinctMacs(d)
    requires multiset(c.pools) == multiset(d.pools) && multiset(c.reservations) == multiset(d.reservations)
    ensures LostAmong(c, networks, leases, now) == LostAmong(d, networks, leases, now)
  {
    if leases != [] {
      OrderIrrelevant(c, d, networks, leases[..|leases| - 1], now);
      SameMembers(c.pools, d.pools);
      SameMembers(c.reservations, d.reservations);
      KeepsUnordered(c, networks, leases[|leases| - 1]);
      KeepsUnordered(d, networks, leases[|leases| - 1]);
      hide Keeps;
    }
  }

  /** With two reservations for one MAC, which validation refuses, the order decides who loses an address. */
  lemma OrderMattersForRepeatedMacs(networks: Networks)
    ensures var a, b := Reservation("m", V4(1)), Reservation("m", V4(2));
            var l := Lease(0, "m", V4(1));
            Keeps(Config(true, [], [a, b]), networks, l) && !Keeps(Config(true, [], [b, a]), networks, l)
  {}

  // ----- one more reservation -----

  function NetworkOf(p: Pool): string { p.network }

  /** Replaces the reservation for the same MAC where it stands, or adds one and sorts. The code's second sort
      key, the address, matters only between reservations of one MAC. */
  function SetReservation(c: Config, r: Reservation): Config {
    var i := IndexOf(c.reservations, r.mac);
    if i < |c.reservations| then c.(reservations := c.reservations[i := r])
    else Normalized(c.(reservations := c.reservations + [r]))
  }

  function Normalized(c: Config): Config {
    c.(pools := SortBy(c.pools, NetworkOf), reservations := SortBy(c.reservations, MacOf))
  }

  lemma SetReservationAdds(c: Config, r: Reservation)
    requires DistinctMacs(c) && !ReservedMac(c, r.mac)
    ensures var d := SetReservation(c, r);
            && (forall x :: x in d.reservations <==> x in c.reservations || x == r)
            && (forall p :: p in d.pools <==> p in c.pools)
            && d.enabled == c.enabled && DistinctMacs(d)
  {
    var more := c.reservations + [r];
    assert IndexOf(c.reservations, r.mac) == |c.reservations|;
    SortByMembers(more, MacOf);
    SortByMembers(c.pools, NetworkOf);
    SortByDistinct(more, MacOf);
  }

  /** A reservation for a MAC that has one takes its place and moves no other. */
  lemma SetReservationReplaces(c: Config, r: Reservation)
    requires ReservedMac(c, r.mac)
    ensures var d := SetReservation(c, r);
            && d.enabled == c.enabled && d.pools == c.pools && |d.reservations| == |c.reservations|
            && exists i :: 0 <= i < |c.reservations| && c.reservations[i].mac == r.mac && d.reservations[i] == r
                           && forall k :: 0 <= k < |c.reservations| && k != i ==> d.reservations[k] == c.reservations[k]
  {
    var i := IndexOf(c.reservations, r.mac);
    assert i < |c.reservations|;
    assert SetReservation(c, r).reservations[i] == r;
  }

  /** An addition leaves pools in order of their network and reservations in order of their MAC, and loses none. */
  lemma SetReservationSorts(c: Config, r: Reservation)
    requires !ReservedMac(c, r.mac)
    ensures var d := SetReservation(c, r);
            && Sorted(d.pools, NetworkOf) && multiset(d.pools) == multiset(c.pools)
            && Sorted(d.reservations, MacOf) && multiset(d.reservations) == multiset(c.reservations + [r])
  {
    assert IndexOf(c.reservations, r.mac) == |c.reservations|;
    SortBySorts(c.reservations + [r], MacOf);
    SortBySorts(c.pools, NetworkOf);
  }

  /** A new reservation, for a MAC and an address nobody has reserved, takes their address from exactly the
      clients that match one but not both of the two, and gives one back to exactly an unserved client that
      matches both. */
  lemma SetReservationChanges(c: Config, r: Reservation, networks: Networks, l: Lease, now: int)
    requires DistinctMacs(c) && r.mac != ""
    requires !ReservedMac(c, r.mac) && !ReservedIp(c, r.ip)
    ensures var d := SetReservation(c, r);
            var live := c.enabled && l.Active(now) && l.ip.V4?;
            && (Lost(d, networks, l, now) && !Lost(c, networks, l, now) <==>
                live && Keeps(c, networks, l) && (l.mac == r.mac) != (l.ip == r.ip))
            && (!Lost(d, networks, l, now) && Lost(c, networks, l, now) <==>
                live && !Keeps(c, networks, l) && l.mac == r.mac && l.ip == r.ip)
  {
    SetReservationAdds(c, r);
    var d := SetReservation(c, r);
    KeepsUnordered(c, networks, l);
    KeepsUnordered(d, networks, l);
    hide Keeps, SetReservation, DistinctMacs;
    assert r in d.reservations;
    assert forall x :: x in c.reservations ==> x in d.reservations;
  }
}
