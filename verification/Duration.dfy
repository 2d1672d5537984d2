/** Durations as text (internal/dhcp/config.go): "1w2d", "45m", or a bare number of seconds. A duration is a
    64-bit count of nanoseconds, and arithmetic on it wraps around. */
module Duration {
  import opened Wrappers
  import opened Strings

  const SECOND := 1_000_000_000
  const MINUTE := 60 * SECOND
  const HOUR := 60 * MINUTE
  const DAY := 24 * HOUR
  const WEEK := 7 * DAY

  const TWO62 := 0x4000_0000_0000_0000
  const TWO63 := 0x8000_0000_0000_0000
  const TWO64 := 0x1_0000_0000_0000_0000

  /** The value of an integer in 64-bit two's complement. */
  function Wrap(x: int): int {
    (x + TWO63) % TWO64 - TWO63
  }

  function UnitSize(c: char): Option<int> {
    match c
    case 's' => Some(SECOND)
    case 'm' => Some(MINUTE)
    case 'h' => Some(HOUR)
    case 'd' => Some(DAY)
    case 'w' => Some(WEEK)
    case _ => None
  }

  // ----- decimal numbers -----

  predicate Digit(c: char) { '0' <= c <= '9' }

  function DigitOf(n: nat): char
    requires n < 10
  {
    '0' + n as char
  }

  function Decimal(n: nat): (s: string)
    ensures s != "" && forall i :: 0 <= i < |s| ==> Digit(s[i])
  {
    if n < 10 then [DigitOf(n)] else Decimal(n / 10) + [DigitOf(n % 10)]
  }

  function Value(s: string): nat
    requires forall i :: 0 <= i < |s| ==> Digit(s[i])
  {
    if s == "" then 0
    else
      assert Digit(s[|s| - 1]);
      10 * Value(s[..|s| - 1]) + (s[|s| - 1] as int - '0' as int)
  }

  lemma {:induction false} ValueOfDecimal(n: nat)
    ensures Value(Decimal(n)) == n
  {
    var s := Decimal(n);
    if n >= 10 {
      ValueOfDecimal(n / 10);
      assert s[..|s| - 1] == Decimal(n / 10);
    } else {
      assert s[..|s| - 1] == "";
    }
  }

  function LeadingDigits(s: string): (n: nat)
    ensures n <= |s| && (forall i :: 0 <= i < n ==> Digit(s[i])) && (n < |s| ==> !Digit(s[n]))
  {
    if s == "" || !Digit(s[0]) then 0
    else
      var n := LeadingDigits(s[1..]);
      assert forall i :: 1 <= i < n + 1 ==> s[i] == s[1..][i - 1];
      n + 1
  }

  // ----- reading -----

  /** `strconv.ParseInt` with 63 bits. */
  function ParseInt(digits: string): Option<int>
    requires forall i :: 0 <= i < |digits| ==> Digit(digits[i])
  {
    if digits != "" && Value(digits) < TWO62 then Some(Value(digits)) else None
  }

  /** So many of a unit, as a 64-bit multiplication leaves it. */
  function Times(n: int, unit: int): int { Wrap(n * unit) }

  function ParseGroups(rest: string, total: int): Result<int>
    decreases |rest|
  {
    if rest == "" then Success(total)
    else
      var i := LeadingDigits(rest);
      match ParseInt(rest[..i])
      case None => Failure
      case Some(n) =>
        if i == |rest| then Success(Wrap(total + Times(n, SECOND)))
        else match UnitSize(rest[i])
          case None => Failure
          case Some(unit) => ParseGroups(rest[i + 1..], Wrap(total + Times(n, unit)))
  }

  function Parsed(s: string): Result<int> {
    if Trim(s) == "" then Failure else ParseGroups(Trim(s), 0)
  }

  /** One turn of the loop. */
  lemma ParseStep(s: string, total: int)
    requires s != ""
    ensures var i := LeadingDigits(s);
            var n := ParseInt(s[..i]);
            ParseGroups(s, total) ==
              if n.None? then Failure
              else if i == |s| then Success(Wrap(total + Times(n.value, SECOND)))
              else if UnitSize(s[i]).None? then Failure
              else ParseGroups(s[i + 1..], Wrap(total + Times(n.value, UnitSize(s[i]).value)))
  {}

  lemma NoNumber(s: string)
    ensures ParseInt(s[..0]).None?
  {}

  lemma NothingRead(total: int)
    ensures ParseGroups("", total) == Success(total)
  {}

  method CountDigits(s: string) returns (i: nat)
    ensures i == LeadingDigits(s)
  {
    i := 0;
    while i < |s| && Digit(s[i])
      invariant i <= LeadingDigits(s)
    {
      i := i + 1;
    }
  }

  /** One turn of the loop, from the digits to the unit behind them. */
  method ParseGroup(rest: string, total: int) returns (done: bool, r: Result<int>, left: string)
    requires rest != ""
    ensures done ==> r == ParseGroups(rest, total)
    ensures !done ==> r.Success? && |left| < |rest| && ParseGroups(left, r.value) == ParseGroups(rest, total)
  {
    hide ParseGroups, ParseInt, UnitSize, Wrap, Times, LeadingDigits;
    var i := CountDigits(rest);
    var n := ParseInt(rest[..i]);
    ParseStep(rest, total);
    hide Digit;
    left := rest[i..];
    if i == 0 { NoNumber(rest); return true, Failure, left; }
    if n.None? { return true, Failure, left; }
    if left == "" { return true, Success(Wrap(total + Times(n.value, SECOND))), left; }
    var unit := UnitSize(left[0]);
    if unit.None? { return true, Failure, left; }
    assert left[1..] == rest[i + 1..];
    left := left[1..];
    return false, Success(Wrap(total + Times(n.value, unit.value))), left;
  }

  method ParseDuration(s: string) returns (r: Result<int>)
    ensures r == Parsed(s)
  {
    var rest := Trim(s);
    if rest == "" { return Failure; }
    r := Success(0);
    while rest != ""
      invariant r.Success? && ParseGroups(rest, r.value) == Parsed(s)
      decreases |rest|
    {
      var done, next, left := ParseGroup(rest, r.value);
      r := next;
      if done { return; }
      rest := left;
    }
    NothingRead(r.value);
  }

  // ----- writing -----

  const UNITS := [('w', WEEK), ('d', DAY), ('h', HOUR), ('m', MINUTE), ('s', SECOND)]

  function Group(n: int, unit: char): string {
    if n > 0 then Decimal(n) + [unit] else ""
  }

  function Groups(d: nat, units: seq<(char, int)>): string
    requires forall u <- units :: u.1 > 0
  {
    if units == [] then "" else Group(d / units[0].1, units[0].0) + Groups(d % units[0].1, units[1..])
  }

  /** What the units leave over. */
  function Remainder(d: nat, units: seq<(char, int)>): nat
    requires forall u <- units :: u.1 > 0
  {
    if units == [] then d else Remainder(d % units[0].1, units[1..])
  }

  /** The last `digits` digits of a number as a decimal fraction without trailing zeros, in front of `tail`. */
  function Fraction(v: nat, digits: nat, tail: string): string {
    if digits == 0 then (if tail == "" then "" else "." + tail)
    else Fraction(v / 10, digits - 1, if tail == "" && v % 10 == 0 then "" else [DigitOf(v % 10)] + tail)
  }

  /** `time.Duration` prints less than a second in the largest unit that gives a whole number in front. */
  function SubSecond(d: nat): string {
    if d == 0 then ""
    else if d < 1_000 then Decimal(d) + "ns"
    else if d < 1_000_000 then Decimal(d / 1_000) + Fraction(d, 3, "") + "\U{00B5}s"
    else Decimal(d / 1_000_000) + Fraction(d, 6, "") + "ms"
  }

  function Printed(d: int): string {
    if d <= 0 then "0s" else Groups(d, UNITS) + SubSecond(Remainder(d, UNITS))
  }

  /** One unit at a time. */
  lemma Unfold(d: nat, units: seq<(char, int)>)
    requires units != [] && forall u <- units :: u.1 > 0
    ensures var (c, size) := units[0];
            && d % size >= 0 && d / size >= 0
            && Groups(d, units) == Group(d / size, c) + Groups(d % size, units[1..])
            && Remainder(d, units) == Remainder(d % size, units[1..])
  {}

  /** The units leave over what is less than a second. */
  lemma {:induction false} SubSecondLeft(d: nat, units: seq<(char, int)>)
    requires units != [] && units[|units| - 1].1 == SECOND
    requires forall u <- units :: u.1 > 0 && u.1 % SECOND == 0
    ensures Remainder(d, units) == d % SECOND
    decreases |units|
  {
    assert units[0] in units;
    RemainderWhole(d, units[0].1);
    if |units| == 1 {
      NothingOver(d % SECOND);
      assert units[1..] == [];
    } else {
      SubSecondLeft(d % units[0].1, units[1..]);
    }
  }

  lemma RemainderWhole(d: nat, size: int)
    requires size > 0 && size % SECOND == 0
    ensures 0 <= d % size && d % size % SECOND == d % SECOND
  {
    QuotientLaw(d, size);
    Shifted(d % size, d / size, size / SECOND, size, d);
  }

  lemma Shifted(r: nat, q: int, k: int, size: int, d: int)
    requires size == k * SECOND && d == r + q * size
    ensures r % SECOND == d % SECOND
  {
    Associate(q, k);
    WholeSeconds(r, q * k);
  }

  lemma WholeSeconds(r: int, x: int)
    ensures (r + x * SECOND) % SECOND == r % SECOND
  {}

  lemma Associate(q: int, k: int)
    ensures q * (k * SECOND) == q * k * SECOND
  {}

  lemma UnitsLeave(d: nat)
    ensures Remainder(d, UNITS) == d % SECOND
  {
    SubSecondLeft(d, UNITS);
  }

  lemma NothingOver(d: nat)
    ensures Remainder(d, []) == d && Groups(d, []) == ""
  {}

  /** `String`: the units, and the odd print of what is left below a second. */
  method Print(d: int) returns (s: string)
    ensures s == Printed(d)
  {
    if d <= 0 { return "0s"; }
    var left;
    s, left := PrintUnits(d, UNITS);
    s := s + SubSecond(left);
  }

  method PrintUnits(d: nat, units: seq<(char, int)>) returns (s: string, td: nat)
    requires forall u <- units :: u.1 > 0
    ensures s == Groups(d, units) && td == Remainder(d, units)
  {
    hide Groups, Remainder, Decimal;
    td, s := d, "";
    for i := 0 to |units|
      invariant s + Groups(td, units[i..]) == Groups(d, units)
      invariant Remainder(td, units[i..]) == Remainder(d, units)
    {
      assert units[i..][1..] == units[i + 1..];
      var (suffix, size) := units[i];
      assert units[i] in units;
      var n := td / size;
      QuotientLaw(td, size);
      Unfold(td, units[i..]);
      if n > 0 {
        s := s + Decimal(n) + [suffix];
        td := td - n * size;
      }
    }
    assert units[|units|..] == [];
    NothingOver(td);
  }

  lemma QuotientLaw(d: nat, size: int)
    requires size > 0
    ensures d - d / size * size == d % size && (d / size == 0 ==> d % size == d) && d / size >= 0
  {}

  // ----- reading what was written -----

  lemma {:induction false} LeadingDigitsOf(digits: string, c: char, rest: string)
    requires (forall i :: 0 <= i < |digits| ==> Digit(digits[i])) && !Digit(c)
    ensures LeadingDigits(digits + [c] + rest) == |digits|
  {
    var s := digits + [c] + rest;
    if digits != "" {
      assert s[1..] == digits[1..] + [c] + rest;
      LeadingDigitsOf(digits[1..], c, rest);
    }
  }

  lemma ReadsGroup(n: nat, c: char, rest: string, total: int)
    requires n < TWO62 && UnitSize(c).Some?
    ensures ParseGroups(Decimal(n) + [c] + rest, total) == ParseGroups(rest, Wrap(total + Times(n, UnitSize(c).value)))
  {
    var s := Decimal(n) + [c] + rest;
    assert !Digit(c);
    ValueOfDecimal(n);
    assert ParseInt(Decimal(n)) == Some(n);
    hide ParseGroups, LeadingDigits, ParseInt, Decimal, Wrap, Times, UnitSize;
    LeadingDigitsOf(Decimal(n), c, rest);
    assert s[..|Decimal(n)|] == Decimal(n) && s[|Decimal(n)|] == c;
    assert s[|Decimal(n)| + 1..] == rest;
    ParseStep(s, total);
  }

  lemma ReadsShare(n: nat, c: char, size: int, share: nat, rest: string, total: nat)
    requires UnitSize(c) == Some(size) && n < TWO62 && total + share < TWO63
    requires Times(n, size) == share && (n == 0 ==> share == 0)
    ensures ParseGroups(Group(n, c) + rest, total) == ParseGroups(rest, total + share)
  {
    hide UnitSize, ParseGroups, Decimal, Wrap, Times;
    if n > 0 {
      ReadsGroup(n, c, rest, total);
      WrapFits(total + share);
    } else {
      assert "" + rest == rest;
    }
  }

  /** One unit, written only when there is some of it, reads back as its share of the total. */
  lemma ReadsUnit(d: nat, c: char, size: int, rest: string, total: nat)
    requires size >= SECOND && UnitSize(c) == Some(size) && total + d < TWO63
    ensures d % size >= 0 && d - d % size >= 0
    ensures ParseGroups(Group(d / size, c) + rest, total) == ParseGroups(rest, total + (d - d % size))
  {
    hide UnitSize, ParseGroups, Group, Wrap, Times;
    GroupFits(d, size);
    QuotientLaw(d, size);
    TimesFits(d / size, size, d - d % size);
    ReadsShare(d / size, c, size, d - d % size, rest, total);
  }

  lemma ReadsFirst(d: nat, units: seq<(char, int)>, total: nat) returns (left: nat)
    requires units != [] && forall u <- units :: u.1 >= SECOND && UnitSize(u.0) == Some(u.1)
    requires total + d < TWO63
    ensures left <= d && Remainder(d, units) == Remainder(left, units[1..])
    ensures ParseGroups(Groups(d, units), total) == ParseGroups(Groups(left, units[1..]), total + (d - left))
  {
    assert units[0] in units;
    Unfold(d, units);
    left := d % units[0].1;
    hide Groups, Remainder, ParseGroups, UnitSize, Group;
    ReadsUnit(d, units[0].0, units[0].1, Groups(left, units[1..]), total);
  }

  lemma {:induction false} ReadsGroups(d: nat, units: seq<(char, int)>, total: nat)
    requires forall u <- units :: u.1 >= SECOND && UnitSize(u.0) == Some(u.1)
    requires total + d < TWO63
    ensures ParseGroups(Groups(d, units), total) == Success(total + d - Remainder(d, units))
    decreases |units|
  {
    NothingRead(total);
    hide Groups, Remainder, ParseGroups, UnitSize, Group;
    if units == [] {
      NothingOver(d);
    } else {
      var left := ReadsFirst(d, units, total);
      ReadsGroups(left, units[1..], total + (d - left));
    }
  }

  lemma TimesFits(n: nat, unit: int, product: int)
    requires n * unit == product && 0 <= product < TWO63
    ensures Times(n, unit) == product
  {}

  lemma WrapFits(x: nat)
    requires x < TWO63
    ensures Wrap(x) == x
  {}

  lemma GroupFits(d: nat, size: int)
    requires size >= SECOND && d < TWO63
    ensures 0 <= d / size < TWO62 && 0 <= d / size * size <= d && d == d / size * size + d % size
  {
    QuotientLaw(d, size);
    var n := d / size;
    if n >= TWO62 {
      Larger(n, TWO62, size, SECOND);
    }
  }

  lemma Larger(a: nat, b: nat, c: nat, e: nat)
    requires a >= b && c >= e
    ensures a * c >= b * e
  {
    assert a * c >= b * c;
    assert b * c >= b * e;
  }

  lemma ReadsWhole(d: nat)
    requires d < TWO63 && Remainder(d, UNITS) == 0
    ensures ParseGroups(Groups(d, UNITS), 0) == Success(d)
  {
    UnitsRead();
    hide ParseGroups, Groups, Remainder, UnitSize, UNITS;
    ReadsGroups(d, UNITS, 0);
  }

  /** A duration survives being printed and read back exactly if it is a non-negative whole number of seconds. Less
      than a second makes the text unreadable, and a negative duration is printed as none. */
  lemma RoundTrip(d: int)
    requires d < TWO63
    ensures Parsed(Printed(d)) == Success(d) <==> d >= 0 && d % SECOND == 0
    ensures d > 0 && d % SECOND != 0 ==> Parsed(Printed(d)) == Failure
    ensures d < 0 ==> Parsed(Printed(d)) == Success(0)
  {
    if d <= 0 {
      ReadsZero();
    } else {
      UnitsLeave(d);
      NotTrimmed(d);
      if d % SECOND == 0 {
        assert Printed(d) == Groups(d, UNITS);
        ReadsWhole(d);
      } else {
        SubSecondFails(Groups(d, UNITS), d % SECOND);
      }
    }
  }

  /** Reading fails at once or goes on behind the first unit. */
  lemma ParseNext(s: string, total: int) returns (next: int)
    requires LeadingDigits(s) < |s|
    ensures ParseGroups(s, total) == Failure || ParseGroups(s, total) == ParseGroups(s[LeadingDigits(s) + 1..], next)
  {
    ParseStep(s, total);
    var i := LeadingDigits(s);
    var n := ParseInt(s[..i]);
    hide ParseGroups, LeadingDigits, ParseInt, UnitSize, Wrap, Times;
    next := if n.Some? && UnitSize(s[i]).Some? then Wrap(total + Times(n.value, UnitSize(s[i]).value)) else 0;
  }

  /** What ends with a character that is no digit before its last unit cannot be read. */
  lemma {:induction false} Unreadable(s: string, total: int)
    requires |s| >= 2 && !Digit(s[|s| - 2]) && !Digit(s[|s| - 1])
    ensures ParseGroups(s, total) == Failure
    decreases |s|
  {
    var i := LeadingDigits(s);
    assert i <= |s| - 2;
    hide ParseGroups, LeadingDigits, Digit;
    var next := ParseNext(s, total);
    if i == |s| - 2 {
      OnlyUnit(s[i + 1..], next);
    } else {
      Unreadable(s[i + 1..], next);
    }
  }

  lemma OnlyUnit(s: string, total: int)
    requires |s| == 1 && !Digit(s[0])
    ensures ParseGroups(s, total) == Failure
  {
    ParseStep(s, total);
    NoNumber(s);
  }

  lemma SubSecondFails(groups: string, d: nat)
    requires 0 < d < SECOND
    ensures ParseGroups(groups + SubSecond(d), 0) == Failure
  {
    var odd := SubSecond(d);
    assert |odd| >= 2 && !Digit(odd[|odd| - 2]) && !Digit(odd[|odd| - 1]);
    hide SubSecond, ParseGroups;
    var s := groups + odd;
    assert s[|s| - 2] == odd[|odd| - 2] && s[|s| - 1] == odd[|odd| - 1];
    Unreadable(s, 0);
  }

  lemma {:induction false} GroupsClean(d: nat, units: seq<(char, int)>)
    requires forall u <- units :: u.1 > 0 && UnitSize(u.0).Some?
    ensures forall c <- Groups(d, units) :: !IsSpace(c)
    decreases |units|
  {
    if units != [] {
      assert units[0] in units;
      GroupsClean(d % units[0].1, units[1..]);
    }
  }

  lemma ReadsZero()
    ensures Parsed("0s") == Success(0)
  {
    ReadsGroup(0, 's', "", 0);
    assert Decimal(0) + ['s'] + "" == "0s";
    NothingRead(0);
    CleanStays("0s");
    hide ParseGroups, Trim;
  }

  lemma UnitsRead()
    ensures forall u <- UNITS :: u.1 >= SECOND && UnitSize(u.0) == Some(u.1)
  {}

  lemma CleanStays(s: string)
    requires forall c <- s :: !IsSpace(c)
    ensures Trim(s) == s
  {
    if s != "" { assert s[0] in s && s[|s| - 1] in s; }
  }

  lemma {:induction false} FractionClean(v: nat, digits: nat, tail: string)
    requires forall c <- tail :: Digit(c)
    ensures forall c <- Fraction(v, digits, tail) :: !IsSpace(c)
  {
    if digits > 0 {
      FractionClean(v / 10, digits - 1, if tail == "" && v % 10 == 0 then "" else [DigitOf(v % 10)] + tail);
    }
  }

  lemma SubSecondClean(d: nat)
    ensures forall c <- SubSecond(d) :: !IsSpace(c)
    ensures d > 0 ==> SubSecond(d) != ""
  {
    FractionClean(d, 3, "");
    FractionClean(d, 6, "");
    hide Fraction, Decimal;
  }

  /** A printed duration has no whitespace to trim, and is never empty. */
  lemma NotTrimmed(d: nat)
    requires 0 < d < TWO63
    ensures Trim(Printed(d)) == Printed(d) != ""
  {
    UnitsRead();
    var units := UNITS;
    GroupsClean(d, units);
    SubSecondClean(Remainder(d, units));
    if Remainder(d, units) == 0 && Groups(d, units) == "" {
      ReadsWhole(d);
      NothingRead(0);
    }
    hide Groups, Remainder, SubSecond, Trim;
    CleanStays(Printed(d));
  }

  // ----- the units, in numbers -----

  /** Nanoseconds in each unit. */
  lemma UnitsAre(c: char)
    ensures UnitSize(c) == if c == 'w' then Some(604_800_000_000_000) else if c == 'd' then Some(86_400_000_000_000)
                           else if c == 'h' then Some(3_600_000_000_000) else if c == 'm' then Some(60_000_000_000)
                           else if c == 's' then Some(1_000_000_000) else None
  {}

  /** The value of an integer in 64 bits is the one that differs from it by a multiple of 2^64. */
  lemma WrapMeans(x: int)
    ensures -0x8000_0000_0000_0000 <= Wrap(x) < 0x8000_0000_0000_0000 && (Wrap(x) - x) % 0x1_0000_0000_0000_0000 == 0
  {}

  /** One number with one unit is that many of it; a unit there is not, or a number past 62 bits, is refused. */
  lemma ReadsOne(n: nat, c: char)
    requires !Digit(c) && !IsSpace(c)
    ensures Parsed(Decimal(n) + [c]) ==
            if n < 0x4000_0000_0000_0000 && UnitSize(c).Some? then Success(Wrap(Wrap(n * UnitSize(c).value))) else Failure
  {
    var s := Decimal(n) + [c];
    ParseStep(s, 0);
    DecimalClean(n);
    CleanStays(s);
    assert Decimal(n) + [c] + "" == s;
    LeadingDigitsOf(Decimal(n), c, "");
    assert s[..|Decimal(n)|] == Decimal(n) && s[|Decimal(n)|] == c && s[|Decimal(n)| + 1..] == "";
    ParsesDecimal(n);
    hide LeadingDigits, ParseInt, Decimal, Wrap, UnitSize, ParseGroups, Trim, Digit;
    if n < TWO62 && UnitSize(c).Some? {
      NothingRead(Wrap(0 + Times(n, UnitSize(c).value)));
    }
  }

  /** Space around a duration does not count, and without anything else there is none. */
  lemma ReadsTrimmed(s: string)
    ensures Parsed(s) == Parsed(Trim(s)) && (Trim(s) == "" ==> Parsed(s) == Failure)
  {
    TrimTrimmed(s);
  }

  /** A number alone counts seconds. */
  lemma ReadsSeconds(n: nat)
    ensures Parsed(Decimal(n)) == if n < 0x4000_0000_0000_0000 then Success(Wrap(Wrap(n * 1_000_000_000))) else Failure
  {
    var s := Decimal(n);
    ParseStep(s, 0);
    DecimalClean(n);
    CleanStays(s);
    AllDigits(s);
    assert s[..|s|] == s;
    ParsesDecimal(n);
    hide LeadingDigits, ParseInt, Decimal, Wrap, UnitSize, ParseGroups, Trim, Digit;
  }

  lemma {:induction false} AllDigits(s: string)
    requires forall i :: 0 <= i < |s| ==> Digit(s[i])
    ensures LeadingDigits(s) == |s|
  {
    if s != "" { AllDigits(s[1..]); }
  }

  lemma DecimalClean(n: nat)
    ensures forall c <- Decimal(n) :: !IsSpace(c)
  {
    hide Decimal;
  }

  lemma ParsesDecimal(n: nat)
    ensures ParseInt(Decimal(n)) == if n < TWO62 then Some(n) else None
  {
    ValueOfDecimal(n);
    hide Decimal;
  }

  /** The print of a duration: weeks, then days below a week, hours below a day, minutes and seconds, each only if there
      is any, and then what is left below a second. */
  lemma PrintedIs(d: nat)
    requires d > 0
    ensures Printed(d) ==
            Group(d / 604_800_000_000_000, 'w') +
            (Group(d % 604_800_000_000_000 / 86_400_000_000_000, 'd') +
             (Group(d % 86_400_000_000_000 / 3_600_000_000_000, 'h') +
              (Group(d % 3_600_000_000_000 / 60_000_000_000, 'm') +
               (Group(d % 60_000_000_000 / 1_000_000_000, 's') + SubSecond(d % 1_000_000_000)))))
  {
    UnitsLeave(d);
    FiveUnits(d, WEEK, DAY, HOUR, MINUTE, SECOND);
    Smaller(d);
    hide Groups, Remainder, Group, SubSecond;
    var g := Group(d / WEEK, 'w');
    Regroup(g, Group(d % WEEK / DAY, 'd'), Group(d % DAY / HOUR, 'h'), Group(d % HOUR / MINUTE, 'm'),
            Group(d % MINUTE / SECOND, 's'), SubSecond(d % SECOND));
  }

  lemma Smaller(d: nat)
    ensures d % WEEK % DAY == d % DAY && d % DAY % HOUR == d % HOUR && d % HOUR % MINUTE == d % MINUTE
  {
    WholeDays(d % WEEK, d / WEEK);
    WholeHours(d % DAY, d / DAY);
    WholeMinutes(d % HOUR, d / HOUR);
    assert d == d % WEEK + d / WEEK * 7 * DAY && d == d % DAY + d / DAY * 24 * HOUR && d == d % HOUR + d / HOUR * 60 * MINUTE;
  }

  lemma WholeDays(r: int, x: int)
    ensures (r + x * 7 * DAY) % DAY == r % DAY
  {}

  lemma WholeHours(r: int, x: int)
    ensures (r + x * 24 * HOUR) % HOUR == r % HOUR
  {}

  lemma WholeMinutes(r: int, x: int)
    ensures (r + x * 60 * MINUTE) % MINUTE == r % MINUTE
  {}

  lemma Regroup(a: string, b: string, c: string, d: string, e: string, f: string)
    ensures a + (b + (c + (d + (e + "")))) + f == a + (b + (c + (d + (e + f))))
  {}

  lemma FiveUnits(d: nat, a: int, b: int, c: int, e: int, f: int)
    requires a > 0 && b > 0 && c > 0 && e > 0 && f > 0
    ensures var x := d % a; var y := x % b; var z := y % c; var v := z % e;
            x >= 0 && y >= 0 && z >= 0 && v >= 0 &&
            Groups(d, [('w', a), ('d', b), ('h', c), ('m', e), ('s', f)]) ==
            Group(d / a, 'w') + (Group(x / b, 'd') + (Group(y / c, 'h') + (Group(z / e, 'm') + (Group(v / f, 's') + ""))))
  {
    var u := [('w', a), ('d', b), ('h', c), ('m', e), ('s', f)];
    assert u[1..] == [('d', b), ('h', c), ('m', e), ('s', f)];
    assert u[1..][1..] == [('h', c), ('m', e), ('s', f)];
    assert u[1..][1..][1..] == [('m', e), ('s', f)];
    assert u[1..][1..][1..][1..] == [('s', f)] && u[1..][1..][1..][1..][1..] == [];
    hide Groups, Remainder, Group;
    Unfold(d, u);
    Unfold(d % a, u[1..]);
    Unfold(d % a % b, u[1..][1..]);
    Unfold(d % a % b % c, u[1..][1..][1..]);
    Unfold(d % a % b % c % e, u[1..][1..][1..][1..]);
    NothingOver(d % a % b % c % e % f);
  }
}
