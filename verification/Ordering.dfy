/** Byte-wise string order and the stable sort by a string key that the Go code gets
    from `sort.Strings` and `slices.SortStableFunc`. */
module Ordering {

  predicate Leq(a: string, b: string) {
    a == "" || (b != "" && (a[0] < b[0] || (a[0] == b[0] && Leq(a[1..], b[1..]))))
  }

  lemma LeqTotal(a: string, b: string)
    ensures Leq(a, b) || Leq(b, a)
  {}

  lemma {:induction false} LeqAntisymmetric(a: string, b: string)
    requires Leq(a, b) && Leq(b, a)
    ensures a == b
  {
    if a != "" && b != "" {
      LeqAntisymmetric(a[1..], b[1..]);
      assert a == [a[0]] + a[1..] && b == [b[0]] + b[1..];
    }
  }

  lemma {:induction false} LeqTransitive(a: string, b: string, c: string)
    requires Leq(a, b) && Leq(b, c)
    ensures Leq(a, c)
  {
    if a != "" && a[0] == b[0] == c[0] {
      LeqTransitive(a[1..], b[1..], c[1..]);
    }
  }

  /** A text comes before those it begins, and else the first difference decides. */
  ghost predicate Before(a: string, b: string) {
    a <= b || exists i: nat :: i < |a| && i < |b| && a[..i] == b[..i] && a[i] < b[i]
  }

  lemma {:induction false} LeqMeans(a: string, b: string)
    ensures Leq(a, b) <==> a <= b || exists i: nat :: i < |a| && i < |b| && a[..i] == b[..i] && a[i] < b[i]
  {
    if a != "" && b != "" {
      BeforeCons(a, b);
      hide Before;
      if a[0] == b[0] { LeqMeans(a[1..], b[1..]); BeforeIs(a[1..], b[1..]); }
    }
    BeforeIs(a, b);
  }

  lemma BeforeIs(a: string, b: string)
    ensures Before(a, b) <==> a <= b || exists i: nat :: i < |a| && i < |b| && a[..i] == b[..i] && a[i] < b[i]
  {}

  lemma BeforeCons(a: string, b: string)
    requires a != "" && b != ""
    ensures Before(a, b) <==> a[0] < b[0] || (a[0] == b[0] && Before(a[1..], b[1..]))
  {
    assert a == [a[0]] + a[1..] && b == [b[0]] + b[1..];
    if a[0] == b[0] {
      if i: nat :| i < |a| && i < |b| && a[..i] == b[..i] && a[i] < b[i] {
        assert i > 0 && a[1..][..i - 1] == a[..i][1..] == b[..i][1..] == b[1..][..i - 1];
      }
      if i: nat :| i < |a[1..]| && i < |b[1..]| && a[1..][..i] == b[1..][..i] && a[1..][i] < b[1..][i] {
        assert a[..i + 1] == [a[0]] + a[1..][..i] && b[..i + 1] == [b[0]] + b[1..][..i];
        assert a[i + 1] < b[i + 1];
      }
    } else {
      if a[0] < b[0] { assert a[..0] == b[..0]; }
      assert forall i: nat :: 0 < i < |a| && i < |b| ==> a[..i][0] == a[0] && b[..i][0] == b[0];
    }
  }

  ghost predicate Sorted<T>(s: seq<T>, key: T -> string) {
    forall i, j :: 0 <= i < j < |s| ==> Leq(key(s[i]), key(s[j]))
  }

  /** Inserts `x` before the first element whose key is not smaller, so that inserting
      from the right keeps equal keys in their original order. */
  function Insert<T>(x: T, s: seq<T>, key: T -> string): (r: seq<T>)
    ensures |r| == |s| + 1
  {
    if s == [] then [x]
    else if Leq(key(x), key(s[0])) then [x] + s
    else [s[0]] + Insert(x, s[1..], key)
  }

  function SortBy<T>(s: seq<T>, key: T -> string): (r: seq<T>)
    ensures |r| == |s|
  {
    if s == [] then [] else Insert(s[0], SortBy(s[1..], key), key)
  }

  lemma {:induction false} InsertPermutes<T>(x: T, s: seq<T>, key: T -> string)
    ensures multiset(Insert(x, s, key)) == multiset(s) + multiset{x}
  {
    if s != [] {
      InsertPermutes(x, s[1..], key);
      assert s == [s[0]] + s[1..];
    }
  }

  lemma {:induction false} InsertSorts<T>(x: T, s: seq<T>, key: T -> string)
    requires Sorted(s, key)
    ensures Sorted(Insert(x, s, key), key)
  {
    if s == [] {
    } else if Leq(key(x), key(s[0])) {
      forall j | 0 <= j < |s|
        ensures Leq(key(x), key(s[j]))
      {
        if j > 0 { LeqTransitive(key(x), key(s[0]), key(s[j])); }
      }
    } else {
      LeqTotal(key(x), key(s[0]));
      InsertSorts(x, s[1..], key);
      InsertPermutes(x, s[1..], key);
      var r := Insert(x, s[1..], key);
      forall j | 0 <= j < |r|
        ensures Leq(key(s[0]), key(r[j]))
      {
        assert r[j] in multiset(r);
        assert r[j] == x || r[j] in s[1..];
      }
    }
  }

  /** Sorting permutes its input and puts the keys in order. */
  lemma {:induction false} SortBySorts<T>(s: seq<T>, key: T -> string)
    ensures multiset(SortBy(s, key)) == multiset(s)
    ensures Sorted(SortBy(s, key), key)
  {
    if s != [] {
      SortBySorts(s[1..], key);
      InsertPermutes(s[0], SortBy(s[1..], key), key);
      InsertSorts(s[0], SortBy(s[1..], key), key);
      assert s == [s[0]] + s[1..];
    }
  }

  lemma SortByMembers<T>(s: seq<T>, key: T -> string)
    ensures forall x :: x in SortBy(s, key) <==> x in s
  {
    SortBySorts(s, key);
    forall x
      ensures x in SortBy(s, key) <==> x in s
    {
      assert x in multiset(SortBy(s, key)) <==> x in multiset(s);
    }
  }

  /** A sorted list of strings is determined by its contents. */
  lemma {:induction false} SortedUnique(a: seq<string>, b: seq<string>)
    requires multiset(a) == multiset(b)
    requires Sorted(a, Self) && Sorted(b, Self)
    ensures a == b
  {
    hide Leq;
    if a == [] {
      assert |multiset(b)| == 0;
    } else {
      assert a[0] in multiset(b);
      assert b != [];
      assert b[0] in multiset(a);
      var i :| 0 <= i < |b| && b[i] == a[0];
      var j :| 0 <= j < |a| && a[j] == b[0];
      assert Leq(Self(a[0]), Self(a[j])) && Leq(Self(b[0]), Self(b[i])) by {
        LeqTotal(a[0], a[0]);
        LeqTotal(b[0], b[0]);
      }
      LeqAntisymmetric(a[0], b[0]);
      TailSorted(a);
      TailSorted(b);
      SortedUnique(a[1..], b[1..]);
    }
  }

  lemma TailSorted(s: seq<string>)
    requires s != []
    ensures s == [s[0]] + s[1..] && multiset(s[1..]) == multiset(s) - multiset{s[0]}
    ensures Sorted(s, Self) ==> Sorted(s[1..], Self)
  {
    assert s == [s[0]] + s[1..];
    assert forall k :: 0 <= k < |s| - 1 ==> s[1..][k] == s[k + 1];
  }

  function Self(s: string): string { s }

  function SortStrings(s: seq<string>): seq<string> {
    SortBy(s, Self)
  }

  /** Whatever order a map's keys come out in, the sorted list is the same. */
  lemma SortStringsOrderFree(a: seq<string>, b: seq<string>)
    requires multiset(a) == multiset(b)
    ensures SortStrings(a) == SortStrings(b)
  {
    SortBySorts(a, Self);
    SortBySorts(b, Self);
    SortedUnique(SortStrings(a), SortStrings(b));
  }

  ghost predicate Distinct<T>(s: seq<T>) {
    forall i, j :: 0 <= i < j < |s| ==> s[i] != s[j]
  }

  lemma DistinctCons<T>(x: T, s: seq<T>)
    ensures Distinct([x] + s) <==> x !in s && Distinct(s)
  {
    var t := [x] + s;
    assert forall i :: 1 <= i < |t| ==> t[i] == s[i - 1];
    assert forall i :: 0 <= i < |s| ==> s[i] == t[i + 1];
    if Distinct(t) {
      forall i | 0 <= i < |s|
        ensures s[i] != x
      {
        assert t[0] != t[i + 1];
      }
    }
  }

  lemma {:induction false} DistinctConcat<T>(a: seq<T>, b: seq<T>)
    requires Distinct(a) && Distinct(b)
    requires forall x :: x in a ==> x !in b
    ensures Distinct(a + b)
  {
    if a == [] {
      assert a + b == b;
    } else {
      assert a == [a[0]] + a[1..] && a + b == [a[0]] + (a[1..] + b);
      DistinctCons(a[0], a[1..]);
      DistinctConcat(a[1..], b);
      DistinctCons(a[0], a[1..] + b);
    }
  }

  lemma {:induction false} DistinctMultiset<T>(s: seq<T>, x: T)
    requires Distinct(s)
    ensures multiset(s)[x] == if x in s then 1 else 0
  {
    if s != [] {
      assert s == [s[0]] + s[1..];
      DistinctMultiset(s[1..], x);
    }
  }

  /** Two duplicate-free lists with the same members are permutations of each other. */
  lemma DistinctSameMembers<T>(a: seq<T>, b: seq<T>)
    requires Distinct(a) && Distinct(b)
    requires forall x :: x in a <==> x in b
    ensures multiset(a) == multiset(b)
  {
    forall x
      ensures multiset(a)[x] == multiset(b)[x]
    {
      DistinctMultiset(a, x);
      DistinctMultiset(b, x);
    }
  }

  lemma {:induction false} MultisetDistinct<T>(s: seq<T>)
    requires forall x :: multiset(s)[x] <= 1
    ensures Distinct(s)
  {
    if s != [] {
      assert s == [s[0]] + s[1..];
      forall x
        ensures multiset(s[1..])[x] <= 1
      {
        assert multiset(s)[x] <= 1;
      }
      MultisetDistinct(s[1..]);
      assert multiset(s)[s[0]] == 1 + multiset(s[1..])[s[0]];
      forall i, j | 0 <= i < j < |s|
        ensures s[i] != s[j]
      {
        if i == 0 { assert s[j] in s[1..]; assert s[j] in multiset(s[1..]); } else { assert s[1..][i-1] != s[1..][j-1]; }
      }
    }
  }

  /** A permutation of a duplicate-free list is duplicate-free. */
  lemma DistinctPermuted<T>(a: seq<T>, b: seq<T>)
    requires Distinct(a) && multiset(a) == multiset(b)
    ensures Distinct(b)
  {
    forall x
      ensures multiset(b)[x] <= 1
    {
      DistinctMultiset(a, x);
    }
    MultisetDistinct(b);
  }

  /** The first element with a key, or the length of the list. */
  function IndexBy<T>(s: seq<T>, key: T -> string, k: string): (i: nat)
    ensures i <= |s| && (i < |s| ==> key(s[i]) == k)
    ensures forall j :: 0 <= j < i ==> key(s[j]) != k
  {
    if s == [] || key(s[0]) == k then 0
    else
      var i := IndexBy(s[1..], key, k);
      assert forall j :: 1 <= j < i + 1 ==> s[j] == s[1..][j - 1];
      i + 1
  }

  /** No two elements share a key. */
  ghost predicate DistinctBy<T>(s: seq<T>, key: T -> string) {
    forall i, j :: 0 <= i < j < |s| ==> key(s[i]) != key(s[j])
  }

  lemma DistinctByAppend<T>(s: seq<T>, x: T, key: T -> string)
    ensures DistinctBy(s + [x], key) <==> DistinctBy(s, key) && forall y :: y in s ==> key(y) != key(x)
  {
    var t := s + [x];
    assert forall k :: 0 <= k < |s| ==> t[k] == s[k];
    assert t[|s|] == x;
    if DistinctBy(t, key) {
      forall y | y in s
        ensures key(y) != key(x)
      {
        var k :| 0 <= k < |s| && s[k] == y;
        assert key(t[k]) != key(t[|s|]);
      }
      forall j, k | 0 <= j < k < |s|
        ensures key(s[j]) != key(s[k])
      {
        assert key(t[j]) != key(t[k]);
      }
    } else if DistinctBy(s, key) {
      var j, k :| 0 <= j < k < |t| && key(t[j]) == key(t[k]);
      assert s[j] in s;
    }
  }

  lemma {:induction false} KeyOnce<T>(s: seq<T>, key: T -> string, x: T, y: T)
    requires DistinctBy(s, key) && key(x) == key(y)
    ensures multiset(s)[x] + (if x == y then 0 else multiset(s)[y]) <= 1
  {
    if s != [] {
      assert s == [s[0]] + s[1..];
      assert forall k :: 0 <= k < |s| - 1 ==> s[1..][k] == s[k + 1];
      KeyOnce(s[1..], key, x, y);
      if s[0] == x || s[0] == y {
        assert x !in s[1..] && y !in s[1..];
      }
    }
  }

  /** A permutation keeps keys distinct, and so does sorting. */
  lemma DistinctByPermuted<T>(a: seq<T>, b: seq<T>, key: T -> string)
    requires DistinctBy(a, key) && multiset(a) == multiset(b)
    ensures DistinctBy(b, key)
  {
    forall i, j | 0 <= i < j < |b|
      ensures key(b[i]) != key(b[j])
    {
      var others := b[..i] + b[i + 1..j] + b[j + 1..];
      assert b == b[..i] + [b[i]] + b[i + 1..j] + [b[j]] + b[j + 1..];
      assert multiset(b) == multiset(others) + multiset{b[i], b[j]};
      if key(b[i]) == key(b[j]) {
        KeyOnce(a, key, b[i], b[j]);
      }
    }
  }

  lemma SortByDistinct<T>(s: seq<T>, key: T -> string)
    requires DistinctBy(s, key)
    ensures DistinctBy(SortBy(s, key), key)
  {
    SortBySorts(s, key);
    DistinctByPermuted(s, SortBy(s, key), key);
  }

  /** Sorting what is already in order changes nothing: the sort is stable. */
  lemma {:induction false} SortedFixed<T>(s: seq<T>, key: T -> string)
    requires Sorted(s, key)
    ensures SortBy(s, key) == s
  {
    if s != [] {
      assert forall k :: 0 <= k < |s| - 1 ==> s[1..][k] == s[k + 1];
      SortedFixed(s[1..], key);
      assert s == [s[0]] + s[1..];
    }
  }
}
