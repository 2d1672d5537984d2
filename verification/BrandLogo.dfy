/** Approximate matching in the brand catalogue (internal/brandlogo/brandlogo.go): the fewest
    single-character edits that turn a query into some contiguous part of a slug. */
module BrandLogo {

  // ----- what the cost means -----

  datatype Edit = Keep(c: char) | Replace(a: char, b: char) | Delete(c: char) | Insert(c: char)

  function Source(es: seq<Edit>): string {
    if es == [] then []
    else
      var init := Source(es[..|es| - 1]);
      match es[|es| - 1]
      case Keep(c) => init + [c]
      case Replace(a, _) => init + [a]
      case Delete(c) => init + [c]
      case Insert(_) => init
  }

  function Target(es: seq<Edit>): string {
    if es == [] then []
    else
      var init := Target(es[..|es| - 1]);
      match es[|es| - 1]
      case Keep(c) => init + [c]
      case Replace(_, b) => init + [b]
      case Delete(_) => init
      case Insert(c) => init + [c]
  }

  function Cost(es: seq<Edit>): nat {
    if es == [] then 0
    else Cost(es[..|es| - 1]) + if es[|es| - 1].Keep? then 0 else 1
  }

  /** `es` edits the query into a contiguous part of the slug. */
  ghost predicate Reaches(es: seq<Edit>, q: string, slug: string) {
    Source(es) == q && exists from, to :: 0 <= from <= to <= |slug| && Target(es) == slug[from..to]
  }

  ghost predicate FewestEdits(cost: nat, q: string, slug: string) {
    && (exists es :: Reaches(es, q, slug) && Cost(es) == cost)
    && (forall es :: Reaches(es, q, slug) ==> cost <= Cost(es))
  }

  // ----- the table -----

  function Min(a: int, b: int): int { if a < b then a else b }

  function Differ(a: char, b: char): nat { if a == b then 0 else 1 }

  /** The fewest edits from the first `j` characters of the query to a part of the slug that ends at `i`. */
  function Best(q: string, slug: string, i: nat, j: nat): nat
    requires i <= |slug| && j <= |q|
  {
    if j == 0 then 0
    else if i == 0 then j
    else Min(Best(q, slug, i - 1, j - 1) + Differ(q[j - 1], slug[i - 1]),
             Min(Best(q, slug, i - 1, j) + 1, Best(q, slug, i, j - 1) + 1))
  }

  /** The best over every place, up to `i`, where the part may end. */
  function BestUpTo(q: string, slug: string, i: nat): nat
    requires i <= |slug|
  {
    if i == 0 then |q| else Min(BestUpTo(q, slug, i - 1), Best(q, slug, i, |q|))
  }

  /** One unfolding of the table's recurrence. */
  lemma BestStep(q: string, slug: string, i: nat, j: nat)
    requires i <= |slug| && 0 < j <= |q|
    ensures i == 0 ==> Best(q, slug, i, j) == Best(q, slug, i, j - 1) + 1
    ensures i > 0 ==>
              Best(q, slug, i, j) == Min(Best(q, slug, i - 1, j - 1) + Differ(q[j - 1], slug[i - 1]),
                                         Min(Best(q, slug, i - 1, j) + 1, Best(q, slug, i, j - 1) + 1))
  {}

  lemma Extend(es: seq<Edit>, e: Edit)
    ensures Cost(es + [e]) == Cost(es) + if e.Keep? then 0 else 1
    ensures Source(es + [e]) == Source(es) + match e { case Keep(c) => [c] case Replace(a, _) => [a] case Delete(c) => [c] case Insert(_) => [] }
    ensures Target(es + [e]) == Target(es) + match e { case Keep(c) => [c] case Replace(_, b) => [b] case Delete(_) => [] case Insert(c) => [c] }
  {
    assert (es + [e])[..|es|] == es;
  }

  /** `es` edits the first `j` characters of the query to the part of the slug from `from` to `i`. */
  ghost predicate Edits(es: seq<Edit>, q: string, slug: string, from: nat, i: nat, j: nat) {
    from <= i <= |slug| && j <= |q| && Source(es) == q[..j] && Target(es) == slug[from..i]
  }

  lemma Extended(es: seq<Edit>, e: Edit, q: string, slug: string, from: nat, i: nat, j: nat)
    requires from <= i <= |slug| && j <= |q|
    requires match e
             case Keep(c) => from < i && 0 < j && q[j - 1] == c == slug[i - 1] && Edits(es, q, slug, from, i - 1, j - 1)
             case Replace(a, b) => from < i && 0 < j && q[j - 1] == a && slug[i - 1] == b && Edits(es, q, slug, from, i - 1, j - 1)
             case Delete(c) => 0 < j && q[j - 1] == c && Edits(es, q, slug, from, i, j - 1)
             case Insert(c) => from < i && slug[i - 1] == c && Edits(es, q, slug, from, i - 1, j)
    ensures Edits(es + [e], q, slug, from, i, j)
  {
    Extend(es, e);
    hide Source, Target, Cost;
    if 0 < j { assert q[..j] == q[..j - 1] + [q[j - 1]]; }
    if from < i { assert slug[from..i] == slug[from..i - 1] + [slug[i - 1]]; }
  }

  lemma NothingEdited(q: string, slug: string, i: nat)
    requires i <= |slug|
    ensures Edits([], q, slug, i, i, 0) && Cost([]) == 0 == Best(q, slug, i, 0)
  {}

  lemma CostAppend(es: seq<Edit>, e: Edit)
    ensures Cost(es + [e]) == Cost(es) + if e.Keep? then 0 else 1
  {
    Extend(es, e);
  }

  lemma {:induction false} BestAttained(q: string, slug: string, i: nat, j: nat) returns (es: seq<Edit>, from: nat)
    requires i <= |slug| && j <= |q|
    ensures from <= i && Edits(es, q, slug, from, i, j) && Cost(es) == Best(q, slug, i, j)
  {
    hide Best, Edits, Source, Target, Cost;
    if j == 0 {
      NothingEdited(q, slug, i);
      return [], i;
    }
    BestStep(q, slug, i, j);
    var init: seq<Edit>;
    var e: Edit;
    if i == 0 || Best(q, slug, i, j) == Best(q, slug, i, j - 1) + 1 {
      init, from := BestAttained(q, slug, i, j - 1);
      e := Delete(q[j - 1]);
    } else if Best(q, slug, i, j) == Best(q, slug, i - 1, j) + 1 {
      init, from := BestAttained(q, slug, i - 1, j);
      e := Insert(slug[i - 1]);
    } else {
      init, from := BestAttained(q, slug, i - 1, j - 1);
      e := if q[j - 1] == slug[i - 1] then Keep(q[j - 1]) else Replace(q[j - 1], slug[i - 1]);
    }
    CostAppend(init, e);
    Extended(init, e, q, slug, from, i, j);
    es := init + [e];
  }

  lemma Shortened(es: seq<Edit>, q: string, slug: string, from: nat, i: nat, j: nat)
    requires es != [] && Edits(es, q, slug, from, i, j)
    ensures var init := es[..|es| - 1];
            match es[|es| - 1]
            case Keep(c) => from < i && 0 < j && q[j - 1] == slug[i - 1] && Edits(init, q, slug, from, i - 1, j - 1)
            case Replace(_, _) => from < i && 0 < j && Edits(init, q, slug, from, i - 1, j - 1)
            case Delete(_) => 0 < j && Edits(init, q, slug, from, i, j - 1)
            case Insert(_) => from < i && Edits(init, q, slug, from, i - 1, j)
  {
    var init := es[..|es| - 1];
    var e := es[|es| - 1];
    assert es == init + [e];
    Extend(init, e);
    if !e.Insert? {
      assert Source(init) == Source(es)[..|Source(es)| - 1] == q[..j - 1];
    }
    if !e.Delete? {
      assert Target(init) == Target(es)[..|Target(es)| - 1] == slug[from..i - 1];
    }
  }

  lemma {:induction false} BestMinimal(q: string, slug: string, es: seq<Edit>, from: nat, i: nat, j: nat)
    requires j <= |q| && i <= |slug| && Edits(es, q, slug, from, i, j)
    ensures Best(q, slug, i, j) <= Cost(es)
    decreases |es|
  {
    if j > 0 {
      hide Edits, Source, Target;
      assert es != [] by { SourceOfNothing(es, q, slug, from, i, j); }
      Shortened(es, q, slug, from, i, j);
      var init := es[..|es| - 1];
      match es[|es| - 1]
      case Keep(_) => BestMinimal(q, slug, init, from, i - 1, j - 1);
      case Replace(_, _) => BestMinimal(q, slug, init, from, i - 1, j - 1);
      case Delete(_) => BestMinimal(q, slug, init, from, i, j - 1);
      case Insert(_) => BestMinimal(q, slug, init, from, i - 1, j);
    }
  }

  lemma SourceOfNothing(es: seq<Edit>, q: string, slug: string, from: nat, i: nat, j: nat)
    requires Edits(es, q, slug, from, i, j) && j > 0
    ensures es != []
  {}

  lemma {:induction false} BestUpToAttained(q: string, slug: string, n: nat) returns (i: nat)
    requires n <= |slug|
    ensures i <= n && BestUpTo(q, slug, n) == Best(q, slug, i, |q|)
  {
    if n == 0 || BestUpTo(q, slug, n) == Best(q, slug, n, |q|) {
      i := n;
    } else {
      i := BestUpToAttained(q, slug, n - 1);
    }
  }

  lemma {:induction false} BestUpToMinimal(q: string, slug: string, i: nat, n: nat)
    requires i <= n <= |slug|
    ensures BestUpTo(q, slug, n) <= Best(q, slug, i, |q|)
    ensures BestUpTo(q, slug, n) <= BestUpTo(q, slug, i)
    decreases n
  {
    if i < n {
      BestUpToMinimal(q, slug, i, n - 1);
    }
  }

  /** The last row's minimum is the fewest edits to any contiguous part of the slug, wherever it starts and ends. */
  lemma TableIsFewest(q: string, slug: string)
    ensures FewestEdits(BestUpTo(q, slug, |slug|), q, slug)
  {
    var i := BestUpToAttained(q, slug, |slug|);
    var es, from := BestAttained(q, slug, i, |q|);
    assert q[..|q|] == q;
    assert Reaches(es, q, slug);
    forall other | Reaches(other, q, slug)
      ensures BestUpTo(q, slug, |slug|) <= Cost(other)
    {
      var from, to :| 0 <= from <= to <= |slug| && Target(other) == slug[from..to];
      BestMinimal(q, slug, other, from, to, |q|);
      BestUpToMinimal(q, slug, to, |slug|);
    }
  }

  lemma {:induction false} BestLength(q: string, slug: string, i: nat, j: nat)
    requires i <= |slug| && j <= |q|
    ensures Best(q, slug, i, j) >= j - i
  {
    hide Best;
    if j > 0 {
      BestStep(q, slug, i, j);
      BestLength(q, slug, i, j - 1);
      if i > 0 {
        BestLength(q, slug, i - 1, j - 1);
        BestLength(q, slug, i - 1, j);
      }
    }
  }

  // ----- the code -----

  const MAX_TYPOS := 2
  const CEILING := 3

  /** Bytes of a character in UTF-8. */
  function Width(c: char): nat {
    if c as int < 0x80 then 1 else if c as int < 0x800 then 2 else if c as int < 0x10000 then 3 else 4
  }

  function ByteLength(s: string): (n: nat)
    ensures n >= |s|
  {
    if s == [] then 0 else Width(s[0]) + ByteLength(s[1..])
  }

  /** Equal below the ceiling; at or above it, both are simply too far. */
  predicate SameUnderCeiling(a: int, b: int) {
    a >= 0 && Min(a, CEILING) == Min(b, CEILING)
  }

  ghost predicate RowHolds(row: array<int>, q: string, slug: string, i: nat, upTo: nat)
    requires i <= |slug| && upTo <= |q| + 1 == row.Length
    reads row
  {
    forall j :: 0 <= j < upTo ==> SameUnderCeiling(row[j], Best(q, slug, i, j))
  }

  /** The edges of the table: a part of the slug may start anywhere for nothing. */
  lemma BestFree(q: string, slug: string, i: nat, j: nat)
    requires i <= |slug| && j <= |q| && (i == 0 || j == 0)
    ensures Best(q, slug, i, j) == j
  {}

  /** One cell computed from its three neighbours. */
  lemma CellHolds(q: string, slug: string, i: nat, j: nat, diagonal: int, above: int, left: int)
    requires i < |slug| && 1 <= j <= |q|
    requires SameUnderCeiling(diagonal, Best(q, slug, i, j - 1))
    requires SameUnderCeiling(above, Best(q, slug, i, j))
    requires SameUnderCeiling(left, Best(q, slug, i + 1, j - 1))
    ensures var edit := diagonal + Differ(q[j - 1], slug[i]);
            SameUnderCeiling(Min(Min(edit, above + 1), Min(left + 1, CEILING)), Best(q, slug, i + 1, j))
  {}

  /** `prev` and `curr` are scratch rows that still hold another slug's numbers on entry. The slug's length is
      compared in bytes, as the code does, although the edits are counted in characters. */
  method TypoCost(q: string, slug: string, prev: array<int>, curr: array<int>) returns (cost: int, ok: bool)
    requires prev.Length == curr.Length == |q| + 1 && prev != curr
    modifies prev, curr
    ensures ok <==> BestUpTo(q, slug, |slug|) <= 2
    ensures ok ==> cost == BestUpTo(q, slug, |slug|)
  {
    hide Best;
    if ByteLength(slug) + MAX_TYPOS < |q| {
      var i := BestUpToAttained(q, slug, |slug|);
      BestLength(q, slug, i, |q|);
      return 0, false;
    }
    for j := 0 to |q| + 1
      invariant RowHolds(prev, q, slug, 0, j)
    {
      BestFree(q, slug, 0, j);
      prev[j] := j;
    }
    var best := |q|;
    for i := 0 to |slug|
      invariant RowHolds(prev, q, slug, i, |q| + 1)
      invariant SameUnderCeiling(best, BestUpTo(q, slug, i))
    {
      curr[0] := 0;
      assert SameUnderCeiling(curr[0], Best(q, slug, i + 1, 0)) by { BestFree(q, slug, i + 1, 0); }
      for j := 1 to |q| + 1
        invariant RowHolds(prev, q, slug, i, |q| + 1)
        invariant RowHolds(curr, q, slug, i + 1, j)
      {
        var edit := prev[j - 1];
        if q[j - 1] != slug[i] {
          edit := edit + 1;
        }
        CellHolds(q, slug, i, j, prev[j - 1], prev[j], curr[j - 1]);
        curr[j] := Min(Min(edit, prev[j] + 1), Min(curr[j - 1] + 1, CEILING));
      }
      best := Min(best, curr[|q|]);
      if best == 0 {
        BestUpToMinimal(q, slug, i + 1, |slug|);
        return 0, true;
      }
      forall j | 0 <= j <= |q| {
        prev[j] := curr[j];
      }
    }
    if best > MAX_TYPOS {
      return 0, false;
    }
    return best, true;
  }

  /** What a caller of `TypoCost` learns: an answer is the exact edit distance to the nearest part of the slug,
      and no answer means every part of it is more than two edits away. */
  lemma TypoCostMeaning(q: string, slug: string, cost: nat)
    ensures BestUpTo(q, slug, |slug|) == cost <==> FewestEdits(cost, q, slug)
    ensures BestUpTo(q, slug, |slug|) > 2 <==> forall es :: Reaches(es, q, slug) ==> Cost(es) > 2
  {
    TableIsFewest(q, slug);
  }
}
