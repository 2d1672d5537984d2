/** IPv4 subnet arithmetic (internal/core/subnet.go).

    An address is what `netip.Addr` is: invalid, or a family and a number. The octet shifting and
    masking of the code is arithmetic on that number here. */
module Subnet {
  import opened Wrappers

  const TWO32 := 0x1_0000_0000

  type Word = n: nat | n < TWO32

  datatype Addr = NoAddr | V4(n: Word) | V6(v: nat)
  {
    /** `Addr.Compare`: by family first, then by number. */
    function Compare(other: Addr): int {
      match (this, other)
      case (V4(a), V4(b)) => a - b
      case (V6(a), V6(b)) => a - b
      case _ => Family() - other.Family()
    }

    function Family(): int {
      match this
      case NoAddr => 0
      case V4(_) => 32
      case V6(_) => 128
    }

    /** The neighbouring addresses, invalid past either end of the family. */
    function Next(): Addr {
      match this
      case V4(n) => if n + 1 < TWO32 then V4(n + 1) else NoAddr
      case V6(n) => V6(n + 1)
      case NoAddr => NoAddr
    }

    function Prev(): Addr {
      match this
      case V4(n) => if n > 0 then V4(n - 1) else NoAddr
      case V6(n) => if n > 0 then V6(n - 1) else NoAddr
      case NoAddr => NoAddr
    }
  }

  /** A prefix of a valid IPv4 address; the address may have host bits set. */
  datatype Prefix = Prefix(addr: Addr, bits: int)

  predicate IPv4(p: Prefix) {
    p.addr.V4? && 0 <= p.bits <= 32
  }

  function Pow2(n: nat): (r: nat)
    ensures r > 0
  {
    if n == 0 then 1 else 2 * Pow2(n - 1)
  }

  /** The number of addresses in a prefix. */
  function BlockSize(p: Prefix): nat
    requires IPv4(p)
  {
    Pow2(32 - p.bits)
  }

  lemma {:induction false} Pow2Monotone(a: nat, b: nat)
    requires a <= b
    ensures Pow2(a) <= Pow2(b)
  {
    if a < b { Pow2Monotone(a, b - 1); }
  }

  // ----- multiples of a block -----

  lemma {:induction false} MulMonotone(a: nat, b: nat, size: nat)
    requires a <= b
    ensures a * size <= b * size
  {
    if a < b {
      MulMonotone(a, b - 1, size);
      assert b * size == (b - 1) * size + size;
    }
  }

  /** Division with remainder is unique. */
  lemma Quotient(k: nat, size: nat, r: nat)
    requires r < size
    ensures (k * size + r) / size == k && (k * size + r) % size == r
  {
    var n := k * size + r;
    var d := n / size;
    assert n == d * size + n % size;
    assert (k + 1) * size == k * size + size && (d + 1) * size == d * size + size;
    if d > k {
      MulMonotone(k + 1, d, size);
    } else if d < k {
      MulMonotone(d + 1, k, size);
    }
  }

  lemma {:induction false} Pow2Add(a: nat, b: nat)
    ensures Pow2(a + b) == Pow2(b) * Pow2(a)
  {
    if b == 0 {
      assert Pow2(b) * Pow2(a) == Pow2(a);
    } else {
      Pow2Add(a, b - 1);
      Doubled(Pow2(b - 1), Pow2(a));
    }
  }

  lemma Doubled(x: nat, y: nat)
    ensures 2 * x * y == 2 * (x * y)
  {}

  lemma Pow2Is()
    ensures Pow2(32) == TWO32
  {
    assert Pow2(4) == 16;
    Pow2Add(4, 4);
    Pow2Add(8, 8);
    Pow2Add(16, 16);
  }

  /** Rounding down to a multiple of a block that divides the space leaves a whole block inside the space. */
  lemma RoundedFits(n: nat, size: nat, q: nat)
    requires size > 0 && n < q * size
    ensures n - n % size + size <= q * size
  {
    var k := n / size;
    assert n == k * size + n % size;
    if k >= q { MulMonotone(q, k, size); }
    MulMonotone(k + 1, q, size);
    assert (k + 1) * size == k * size + size;
  }

  /** Numbers round down to the same multiple exactly when they lie in the same block. */
  lemma SameBlock(n: nat, m: nat, size: nat)
    requires size > 0
    ensures m - m % size == n - n % size <==> n - n % size <= m < n - n % size + size
  {
    var k := n / size;
    assert n - n % size == k * size;
    if k * size <= m < k * size + size {
      Quotient(k, size, m - k * size);
    }
  }

  /** A block fits in the 32-bit space, and a prefix of up to 30 bits holds at least four addresses. */
  lemma BlockFits(p: Prefix)
    requires IPv4(p)
    ensures p.bits <= 30 ==> BlockSize(p) >= 4
    ensures 0 <= Network(p) <= p.addr.n < Network(p) + BlockSize(p) <= TWO32
  {
    if p.bits <= 30 {
      Pow2Monotone(2, 32 - p.bits);
      assert Pow2(2) == 4;
    }
    Pow2Is();
    Pow2Add(32 - p.bits, p.bits);
    RoundedFits(p.addr.n, Pow2(32 - p.bits), Pow2(p.bits));
  }

  /** The network address, as a number: the host bits cleared. */
  function Network(p: Prefix): nat
    requires IPv4(p)
  {
    RemainderFits(p.addr.n, BlockSize(p));
    p.addr.n - p.addr.n % BlockSize(p)
  }

  lemma RemainderFits(n: nat, size: nat)
    requires size > 0
    ensures 0 <= n % size <= n
  {}

  function Masked(p: Prefix): Addr
    requires IPv4(p)
  {
    V4(Network(p))
  }

  /** An address is in the prefix when it has the same network bits. */
  predicate Contains(p: Prefix, a: Addr)
    requires IPv4(p)
  {
    a.V4? && a.n - a.n % BlockSize(p) == Network(p)
  }

  lemma ContainsBlock(p: Prefix, a: Addr)
    requires IPv4(p) && a.V4?
    ensures Contains(p, a) <==> Network(p) <= a.n < Network(p) + BlockSize(p)
  {
    SameBlock(p.addr.n, a.n, BlockSize(p));
  }

  // ----- the code -----

  function Broadcast(p: Prefix): Option<Addr> {
    if !IPv4(p) then None
    else
      BlockFits(p);
      Some(V4(Network(p) + BlockSize(p) - 1))
  }

  function HostRange(p: Prefix): Option<(Addr, Addr)> {
    if !IPv4(p) || p.bits > 30 then None
    else Some((Masked(p).Next(), Broadcast(p).value.Prev()))
  }

  const MAX_SUGGESTED := 254
  const STATIC_RESERVE := 100
  const MIN_SUGGESTED := 32

  /** Both ends are subtracted as 32-bit words before one is added, so the whole address space counts as 0. */
  function RangeSize(start: Addr, end: Addr): nat {
    if !start.V4? || !end.V4? || start.Compare(end) > 0 then 0
    else (end.n - start.n + 1) % TWO32
  }

  function AddTo(a: Addr, n: int): Addr {
    if !a.V4? || n < 0 then a
    else if a.n + n > TWO32 - 1 then V4(TWO32 - 1)
    else V4(a.n + n)
  }

  predicate InRange(start: Addr, end: Addr, a: Addr) {
    start != NoAddr && end != NoAddr && a != NoAddr && start.Compare(a) <= 0 && a.Compare(end) <= 0
  }

  /** A router inside the host range splits it, and the larger side wins. */
  function LargerSide(lo: Addr, hi: Addr, router: Addr): (Addr, Addr) {
    if RangeSize(router.Next(), hi) >= RangeSize(lo, router.Prev()) then (router.Next(), hi) else (lo, router.Prev())
  }

  function SuggestRange(p: Prefix, router: Addr): Option<(Addr, Addr)> {
    match HostRange(p)
    case None => None
    case Some((lo, hi)) =>
      var split := InRange(lo, hi, router);
      var (start, end) := if split then LargerSide(lo, hi, router) else (lo, hi);
      if split && start.Compare(end) > 0 then None
      else Some(Trimmed(start, end, AddTo(Masked(p), STATIC_RESERVE)))
  }

  /** Leaves the static block free if enough remains, and caps what is left. */
  function Trimmed(start: Addr, end: Addr, reserved: Addr): (Addr, Addr) {
    var from := if InRange(start, end, reserved) && RangeSize(reserved, end) >= MIN_SUGGESTED then reserved else start;
    (from, if RangeSize(from, end) > MAX_SUGGESTED then AddTo(from, MAX_SUGGESTED - 1) else end)
  }

  // ----- what the code promises -----

  /** A range a DHCP server can hand out on a subnet: inside it, forwards, and free of the three addresses
      that cannot be given to a client. */
  ghost predicate Assignable(p: Prefix, router: Addr, start: Addr, end: Addr)
    requires IPv4(p)
  {
    && start.V4? && end.V4? && start.n <= end.n
    && Contains(p, start) && Contains(p, end)
    && (forall a: Addr :: InRange(start, end, a) ==>
          a != Masked(p) && Some(a) != Broadcast(p) && a != router && Contains(p, a))
  }

  /** Derivation works on every prefix with room for hosts, wherever the router is: the range is assignable,
      not empty and of at most 254 addresses. */
  lemma SuggestRangeWorks(p: Prefix, router: Addr)
    requires IPv4(p) && p.bits <= 30
    ensures SuggestRange(p, router).Some?
    ensures var (start, end) := SuggestRange(p, router).value;
            Assignable(p, router, start, end) && 1 <= RangeSize(start, end) <= MAX_SUGGESTED
  {
    SuggestRangeBounds(p, router);
    var (start, end) := SuggestRange(p, router).value;
    hide SuggestRange, Network, BlockSize, Contains;
    BlockFits(p);
    forall a: Addr | InRange(start, end, a)
      ensures a != Masked(p) && Some(a) != Broadcast(p) && a != router && Contains(p, a)
    {
      ContainsBlock(p, a);
    }
    ContainsBlock(p, start);
    ContainsBlock(p, end);
  }

  /** The derived range as numbers. */
  lemma SuggestRangeBounds(p: Prefix, router: Addr)
    requires IPv4(p) && p.bits <= 30
    ensures SuggestRange(p, router).Some?
    ensures var (start, end) := SuggestRange(p, router).value;
            && start.V4? && end.V4?
            && Network(p) < start.n <= end.n < Network(p) + BlockSize(p) - 1
            && end.n - start.n + 1 <= MAX_SUGGESTED
            && (router.V4? ==> router.n < start.n || end.n < router.n)
  {
    BlockFits(p);
    hide Network, BlockSize;
    var lo, hi := V4(Network(p) + 1), V4(Network(p) + BlockSize(p) - 2);
    assert HostRange(p) == Some((lo, hi));
    hide HostRange;
    if InRange(lo, hi, router) {
      LargerSideBounds(lo, hi, router);
      hide LargerSide;
      var (start, end) := LargerSide(lo, hi, router);
      TrimmedBounds(start, end, AddTo(Masked(p), STATIC_RESERVE));
    } else {
      TrimmedBounds(lo, hi, AddTo(Masked(p), STATIC_RESERVE));
    }
    hide Trimmed, LargerSide;
  }

  lemma LargerSideBounds(lo: Addr, hi: Addr, router: Addr)
    requires lo.V4? && hi.V4? && lo.n < hi.n < TWO32 - 1 && 0 < lo.n && InRange(lo, hi, router)
    ensures var (start, end) := LargerSide(lo, hi, router);
            && start.V4? && end.V4? && lo.n <= start.n <= end.n <= hi.n
            && router.V4? && (router.n < start.n || end.n < router.n)
  {}

  lemma TrimmedBounds(start: Addr, end: Addr, reserved: Addr)
    requires start.V4? && end.V4? && start.n <= end.n && end.n - start.n + 1 < TWO32 && reserved.V4?
    ensures var (from, to) := Trimmed(start, end, reserved);
            && from.V4? && to.V4? && start.n <= from.n <= to.n <= end.n && to.n - from.n + 1 <= MAX_SUGGESTED
  {}

  /** A prefix one bit shorter holds twice the addresses; a full-length one holds one. */
  lemma BlockSizes(p: Prefix)
    requires IPv4(p)
    ensures BlockSize(p) == if p.bits == 32 then 1 else 2 * BlockSize(p.(bits := p.bits + 1))
  {}

  /** The network address is the first in the prefix and the broadcast address the last. */
  lemma BlockEnds(p: Prefix, a: Addr)
    requires IPv4(p) && a.V4?
    ensures Broadcast(p).Some? && Broadcast(p).value.V4?
    ensures Contains(p, a) <==> Masked(p).n <= a.n <= Broadcast(p).value.n
    ensures Broadcast(p).value.n - Masked(p).n + 1 == BlockSize(p)
  {
    BlockFits(p);
    ContainsBlock(p, a);
    hide Network, BlockSize, Contains;
  }

  /** The host range holds every address of the prefix but its first and last. */
  lemma HostRangeIs(p: Prefix, a: Addr)
    requires IPv4(p) && p.bits <= 30
    ensures HostRange(p).Some?
    ensures InRange(HostRange(p).value.0, HostRange(p).value.1, a) <==>
            a.V4? && Masked(p).n < a.n < Broadcast(p).value.n
  {
    BlockFits(p);
    hide Network, BlockSize;
  }

  /** Where a router strictly between the first and last address leaves more room, above it on a tie. */
  predicate RoomAbove(base: nat, last: nat, r: nat) { last - 1 - r >= r - 1 - base }

  /** The derived range, number by number. A router inside the prefix splits it and the larger side is taken; the range
      begins at .100 if that leaves at least 32 addresses there, and else where the side begins; and it runs to the end
      of the side or to its 254th address. */
  lemma SuggestRangeExactly(p: Prefix, router: Addr)
    requires IPv4(p) && p.bits <= 30
    ensures SuggestRange(p, router).Some? && SuggestRange(p, router).value.0.V4? && SuggestRange(p, router).value.1.V4?
    ensures var (start, end) := SuggestRange(p, router).value;
            var base, last := Masked(p).n, Broadcast(p).value.n;
            var split := router.V4? && base < router.n < last;
            var lo := if split && RoomAbove(base, last, router.n) then router.n + 1 else base + 1;
            var hi := if split && !RoomAbove(base, last, router.n) then router.n - 1 else last - 1;
            && start.n == (if lo <= base + 100 && base + 131 <= hi then base + 100 else lo)
            && end.n == if hi < start.n + 253 then hi else start.n + 253
  {
    BlockFits(p);
    hide Network, BlockSize, LargerSide, Trimmed, SuggestRange;
    var base, last := Network(p), Network(p) + BlockSize(p) - 1;
    var split := router.V4? && base < router.n < last;
    var lo := if split && RoomAbove(base, last, router.n) then router.n + 1 else base + 1;
    var hi := if split && !RoomAbove(base, last, router.n) then router.n - 1 else last - 1;
    SuggestSteps(p, router, base, last);
    TrimmedIs(lo, hi, base);
  }

  lemma SuggestSteps(p: Prefix, router: Addr, base: nat, last: nat)
    requires IPv4(p) && base + 3 <= last < TWO32
    requires HostRange(p) == Some((V4(base + 1), V4(last - 1))) && Masked(p) == V4(base)
    ensures var split := router.V4? && base < router.n < last;
            var lo := if split && RoomAbove(base, last, router.n) then router.n + 1 else base + 1;
            var hi := if split && !RoomAbove(base, last, router.n) then router.n - 1 else last - 1;
            lo <= hi && SuggestRange(p, router) == Some(Trimmed(V4(lo), V4(hi), AddTo(V4(base), STATIC_RESERVE)))
  {
    hide HostRange, LargerSide, Trimmed, Masked, AddTo;
    if router.V4? && base < router.n < last { SideIs(base, last, router.n); }
  }

  lemma SideIs(base: nat, last: nat, r: nat)
    requires last < TWO32 && base < r < last && base + 3 <= last
    ensures LargerSide(V4(base + 1), V4(last - 1), V4(r)) ==
            if RoomAbove(base, last, r) then (V4(r + 1), V4(last - 1)) else (V4(base + 1), V4(r - 1))
  {
    var lo, hi := V4(base + 1), V4(last - 1);
    RangeSizeCounts(V4(r + 1), hi);
    RangeSizeCounts(lo, V4(r).Prev());
    hide RangeSize;
  }

  lemma TrimmedIs(lo: nat, hi: nat, base: nat)
    requires lo <= hi < TWO32 - 1 && base < lo
    ensures var start := if lo <= base + 100 && base + 131 <= hi then base + 100 else lo;
            Trimmed(V4(lo), V4(hi), AddTo(V4(base), STATIC_RESERVE)) ==
            (V4(start), V4(if hi < start + 253 then hi else start + 253))
  {
    if base + 100 < TWO32 { RangeSizeCounts(V4(base + 100), V4(hi)); }
    RangeSizeCounts(V4(TWO32 - 1), V4(hi));
    RangeSizeCounts(V4(lo), V4(hi));
    hide RangeSize;
  }

  /** On the usual network, a /24 with the router below .100, the range is .100 to .254: the static block stays free. */
  lemma SuggestRangeUsual(p: Prefix, router: Addr)
    requires IPv4(p) && p.bits == 24
    requires router.V4? && Network(p) < router.n < Network(p) + 100
    ensures SuggestRange(p, router).Some?
    ensures var (start, end) := SuggestRange(p, router).value;
            start.V4? && end.V4? && start.n == Network(p) + 100 && end.n == Network(p) + 254
  {
    SuggestRangeExactly(p, router);
    BlockEnds(p, router);
    assert BlockSize(p) == 256 by { assert Pow2(8) == 256; }
    hide SuggestRange, BlockSize, Network, Broadcast;
  }

  /** A range that can be handed out, in numbers. */
  lemma AssignableMeans(p: Prefix, router: Addr, start: Addr, end: Addr)
    requires IPv4(p)
    ensures Assignable(p, router, start, end) <==>
            && start.V4? && end.V4? && Masked(p).n < start.n <= end.n < Broadcast(p).value.n
            && !(router.V4? && start.n <= router.n <= end.n)
  {
    BlockFits(p);
    if start.V4? && end.V4? {
      ContainsBlock(p, start);
      ContainsBlock(p, end);
      hide Network, BlockSize, Contains;
      forall a: Addr | InRange(start, end, a) && a.V4?
        ensures Contains(p, a) <==> Network(p) <= a.n < Network(p) + BlockSize(p)
      {
        ContainsBlock(p, a);
      }
      if Assignable(p, router, start, end) {
        assert InRange(start, end, start) && InRange(start, end, end);
        assert !InRange(start, end, router);
      }
    }
  }

  /** Without room for hosts there is nothing to derive. */
  lemma SuggestRangeRefuses(p: Prefix, router: Addr)
    ensures SuggestRange(p, router).None? <==> !IPv4(p) || p.bits > 30
  {
    if IPv4(p) && p.bits <= 30 {
      SuggestRangeWorks(p, router);
    }
  }

  /** The size of a range is the number of its addresses, except that the whole address space counts as none. */
  lemma RangeSizeCounts(start: Addr, end: Addr)
    requires start.V4? && end.V4?
    ensures RangeSize(start, end) == if start.n > end.n || end.n - start.n + 1 == TWO32 then 0 else end.n - start.n + 1
  {}
}
