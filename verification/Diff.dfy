/** The line diff of internal/core/diff.go: a table of longest common subsequences and a walk through it. */
module Diff {

  // ----- what a diff is -----

  /** An output line is a one-character mark followed by the line it is about. */
  predicate Marked(op: string) {
    op != "" && (op[0] == ' ' || op[0] == '-' || op[0] == '+')
  }

  /** The lines whose mark is a space or `mark`. */
  function Restrict(ops: seq<string>, mark: char): seq<string>
    requires forall op <- ops :: Marked(op)
  {
    if ops == [] then []
    else
      var init := Restrict(ops[..|ops| - 1], mark);
      var op := ops[|ops| - 1];
      assert Marked(op);
      if op[0] == ' ' || op[0] == mark then init + [op[1..]] else init
  }

  function Unchanged(ops: seq<string>): seq<string>
    requires forall op <- ops :: Marked(op)
  {
    Restrict(ops, ' ')
  }

  /** `ops` is an edit script from one text to another: its kept and removed lines are the first,
      its kept and added lines the second. */
  ghost predicate Script(ops: seq<string>, before: seq<string>, after: seq<string>) {
    (forall op <- ops :: Marked(op)) && Restrict(ops, '-') == before && Restrict(ops, '+') == after
  }

  ghost predicate Subsequence(s: seq<string>, t: seq<string>) {
    s == [] || (t != [] && ((s[0] == t[0] && Subsequence(s[1..], t[1..])) || Subsequence(s, t[1..])))
  }

  ghost predicate Common(s: seq<string>, a: seq<string>, b: seq<string>) {
    Subsequence(s, a) && Subsequence(s, b)
  }

  /** The length of a longest common subsequence, by its recurrence. */
  function Lcs(a: seq<string>, b: seq<string>): nat
    decreases |a| + |b|
  {
    if a == [] || b == [] then 0
    else if a[0] == b[0] then Lcs(a[1..], b[1..]) + 1
    else Max(Lcs(a[1..], b), Lcs(a, b[1..]))
  }

  function Max(a: int, b: int): int { if a < b then b else a }

  // ----- the recurrence is the longest common subsequence -----

  lemma {:induction false} SubsequenceTail(s: seq<string>, t: seq<string>)
    requires s != [] && Subsequence(s, t)
    ensures Subsequence(s[1..], t)
    ensures t != [] && Subsequence(s[1..], t[1..])
    decreases |t|
  {
    if s[0] == t[0] && Subsequence(s[1..], t[1..]) {
      SubsequenceLonger(s[1..], t[1..], t[0]);
      assert [t[0]] + t[1..] == t;
    } else {
      SubsequenceTail(s, t[1..]);
      SubsequenceLonger(s[1..], t[1..], t[0]);
      assert [t[0]] + t[1..] == t;
    }
  }

  lemma SubsequenceLonger(s: seq<string>, t: seq<string>, x: string)
    requires Subsequence(s, t)
    ensures Subsequence(s, [x] + t)
  {
    assert ([x] + t)[1..] == t;
  }

  lemma {:induction false} LcsBounds(s: seq<string>, a: seq<string>, b: seq<string>)
    requires Common(s, a, b)
    ensures |s| <= Lcs(a, b)
    decreases |a| + |b|
  {
    if s != [] {
      if a[0] == b[0] {
        SubsequenceTail(s, a);
        SubsequenceTail(s, b);
        LcsBounds(s[1..], a[1..], b[1..]);
      } else if Subsequence(s, a[1..]) {
        LcsBounds(s, a[1..], b);
      } else {
        LcsBounds(s, a, b[1..]);
      }
    }
  }

  lemma {:induction false} SubsequenceAppend(s: seq<string>, t: seq<string>, x: string)
    requires Subsequence(s, t)
    ensures Subsequence(s + [x], t + [x]) && Subsequence(s, t + [x])
    decreases |t|
  {
    if t == [] {
      assert s + [x] == [x] && t + [x] == [x];
    } else {
      assert (t + [x])[1..] == t[1..] + [x];
      if s != [] && s[0] == t[0] && Subsequence(s[1..], t[1..]) {
        assert (s + [x])[1..] == s[1..] + [x];
        SubsequenceAppend(s[1..], t[1..], x);
      } else if s != [] {
        SubsequenceAppend(s, t[1..], x);
      } else {
        SubsequenceAppend(s, t[1..], x);
      }
    }
  }

  /** The unchanged lines of any script are common to both texts. */
  lemma {:induction false} UnchangedCommon(ops: seq<string>, before: seq<string>, after: seq<string>)
    requires Script(ops, before, after)
    ensures Common(Unchanged(ops), before, after)
    ensures |ops| + |Unchanged(ops)| == |before| + |after|
  {
    if ops != [] {
      var init := ops[..|ops| - 1];
      UnchangedCommon(init, Restrict(init, '-'), Restrict(init, '+'));
      assert ops[|ops| - 1] in ops;
      var line := ops[|ops| - 1][1..];
      SubsequenceAppend(Unchanged(init), Restrict(init, '-'), line);
      SubsequenceAppend(Unchanged(init), Restrict(init, '+'), line);
    }
  }

  /** A script that keeps as many lines as the longest common subsequence is as short as any. */
  lemma LcsScriptIsShortest(ops: seq<string>, other: seq<string>, before: seq<string>, after: seq<string>)
    requires Script(ops, before, after) && Script(other, before, after)
    requires |Unchanged(ops)| == Lcs(before, after)
    ensures |ops| <= |other|
  {
    UnchangedCommon(ops, before, after);
    UnchangedCommon(other, before, after);
    LcsBounds(Unchanged(other), before, after);
  }

  // ----- the code -----

  /** The table: cell (i, j) holds the longest common subsequence of the two suffixes that start there. */
  method FillTable(before: seq<string>, after: seq<string>) returns (lcs: array2<int>)
    ensures fresh(lcs) && lcs.Length0 == |before| + 1 && lcs.Length1 == |after| + 1
    ensures forall i, j :: 0 <= i <= |before| && 0 <= j <= |after| ==> lcs[i, j] == Lcs(before[i..], after[j..])
  {
    hide Lcs;
    var n, m := |before|, |after|;
    lcs := new int[n + 1, m + 1]((i, j) => 0);
    forall b | 0 <= b <= m
      ensures Lcs(before[n..], after[b..]) == 0
    {
      LcsEnd(before[n..], after[b..]);
    }
    for i := n downto 0
      invariant forall a, b :: i <= a <= n && 0 <= b <= m ==> lcs[a, b] == Lcs(before[a..], after[b..])
      invariant forall a, b :: 0 <= a < i && 0 <= b <= m ==> lcs[a, b] == 0
    {
      LcsEnd(before[i..], after[m..]);
      for j := m downto 0
        invariant forall a, b :: i < a <= n && 0 <= b <= m ==> lcs[a, b] == Lcs(before[a..], after[b..])
        invariant forall b :: j <= b <= m ==> lcs[i, b] == Lcs(before[i..], after[b..])
        invariant forall a, b :: 0 <= a < i && 0 <= b <= m ==> lcs[a, b] == 0
      {
        LcsStep(before, after, i, j);
        if before[i] == after[j] {
          lcs[i, j] := lcs[i + 1, j + 1] + 1;
        } else {
          lcs[i, j] := Max(lcs[i + 1, j], lcs[i, j + 1]);
        }
      }
    }
  }

  lemma RestrictAppend(ops: seq<string>, op: string, mark: char)
    requires (forall o <- ops :: Marked(o)) && Marked(op)
    ensures forall o <- ops + [op] :: Marked(o)
    ensures Restrict(ops + [op], mark) ==
            if op[0] == ' ' || op[0] == mark then Restrict(ops, mark) + [op[1..]] else Restrict(ops, mark)
  {
    assert (ops + [op])[..|ops|] == ops;
  }

  /** In every changed stretch the removed lines come first. */
  ghost predicate RemovalsFirst(ops: seq<string>) {
    forall i, j :: 0 <= i < j < |ops| && j == i + 1 ==> !(ops[i] != "" && ops[i][0] == '+' && ops[j] != "" && ops[j][0] == '-')
  }

  /** The last line is an addition. */
  predicate EndsAdding(ops: seq<string>) { ops != [] && ops[|ops| - 1] != "" && ops[|ops| - 1][0] == '+' }

  lemma {:induction false} LcsAttained(a: seq<string>, b: seq<string>) returns (s: seq<string>)
    ensures Common(s, a, b) && |s| == Lcs(a, b)
    decreases |a| + |b|
  {
    if a == [] || b == [] { return []; }
    assert a == [a[0]] + a[1..] && b == [b[0]] + b[1..];
    if a[0] == b[0] {
      s := LcsAttained(a[1..], b[1..]);
      s := [a[0]] + s;
      assert s[1..] == s[1..];
    } else if Lcs(a[1..], b) >= Lcs(a, b[1..]) {
      s := LcsAttained(a[1..], b);
      SubsequenceLonger(s, a[1..], a[0]);
    } else {
      s := LcsAttained(a, b[1..]);
      SubsequenceLonger(s, b[1..], b[0]);
    }
  }

  /** Less text has no longer common subsequence. */
  lemma LcsShrinks(a: seq<string>, b: seq<string>)
    requires b != []
    ensures Lcs(a, b[1..]) <= Lcs(a, b)
  {
    var s := LcsAttained(a, b[1..]);
    SubsequenceLonger(s, b[1..], b[0]);
    assert b == [b[0]] + b[1..];
    LcsBounds(s, a, b);
  }

  /** One more output line, and what it adds to the two texts and to the unchanged lines. */
  method Emit(ops: seq<string>, mark: char, line: string, ghost before: seq<string>, ghost after: seq<string>)
    returns (out: seq<string>)
    requires Script(ops, before, after) && Marked([mark])
    ensures out == ops + [[mark] + line]
    ensures Script(out, if mark == '+' then before else before + [line], if mark == '-' then after else after + [line])
    ensures |Unchanged(out)| == |Unchanged(ops)| + if mark == ' ' then 1 else 0
    ensures RemovalsFirst(ops) && !(mark == '-' && EndsAdding(ops)) ==> RemovalsFirst(out)
    ensures EndsAdding(out) <==> mark == '+'
  {
    out := ops + [[mark] + line];
    assert ([mark] + line)[1..] == line;
    RestrictAppend(ops, [mark] + line, '-');
    RestrictAppend(ops, [mark] + line, '+');
    RestrictAppend(ops, [mark] + line, ' ');
  }

  lemma LcsStep(before: seq<string>, after: seq<string>, i: nat, j: nat)
    requires i < |before| && j < |after|
    ensures Lcs(before[i..], after[j..]) ==
            if before[i] == after[j] then Lcs(before[i + 1..], after[j + 1..]) + 1
            else Max(Lcs(before[i + 1..], after[j..]), Lcs(before[i..], after[j + 1..]))
  {
    assert before[i..][1..] == before[i + 1..] && after[j..][1..] == after[j + 1..];
  }

  lemma NothingYet()
    ensures Script([], [], []) && Unchanged([]) == [] && RemovalsFirst([]) && !EndsAdding([])
  {}

  lemma LcsEnd(before: seq<string>, after: seq<string>)
    requires before == [] || after == []
    ensures Lcs(before, after) == 0
  {}

  /** The walk. Its output is an edit script from `before` to `after` that keeps a longest common
      subsequence, so no edit script is shorter. */
  method DiffOps(before: seq<string>, after: seq<string>) returns (out: seq<string>)
    ensures Script(out, before, after)
    ensures Common(Unchanged(out), before, after)
    ensures forall s :: Common(s, before, after) ==> |s| <= |Unchanged(out)|
    ensures forall other :: Script(other, before, after) ==> |out| <= |other|
    ensures RemovalsFirst(out)
  {
    hide Lcs, Restrict, RemovalsFirst, EndsAdding;
    NothingYet();
    var lcs := FillTable(before, after);
    var n, m := |before|, |after|;
    var i, j := 0, 0;
    out := [];
    assert Script(out, before[..i], after[..j]) && |Unchanged(out)| == 0 by { NothingYet(); }
    assert before[0..] == before && after[0..] == after;
    while i < n && j < m
      invariant 0 <= i <= n && 0 <= j <= m
      invariant Script(out, before[..i], after[..j])
      invariant forall a, b :: 0 <= a <= n && 0 <= b <= m ==> lcs[a, b] == Lcs(before[a..], after[b..])
      invariant |Unchanged(out)| + Lcs(before[i..], after[j..]) == Lcs(before, after)
      invariant RemovalsFirst(out)
      invariant EndsAdding(out) && i < n ==> Lcs(before[i + 1..], after[j..]) < Lcs(before[i..], after[j..])
      decreases n - i + m - j
    {
      LcsStep(before, after, i, j);
      LcsShrinks(before[i + 1..], after[j..]);
      assert after[j..][1..] == after[j + 1..];
      assert before[..i + 1] == before[..i] + [before[i]] && after[..j + 1] == after[..j] + [after[j]];
      if before[i] == after[j] {
        out := Emit(out, ' ', before[i], before[..i], after[..j]);
        i, j := i + 1, j + 1;
      } else if lcs[i + 1, j] >= lcs[i, j + 1] {
        out := Emit(out, '-', before[i], before[..i], after[..j]);
        i := i + 1;
      } else {
        out := Emit(out, '+', after[j], before[..i], after[..j]);
        j := j + 1;
      }
    }
    LcsEnd(before[i..], after[j..]);
    while i < n
      invariant 0 <= i <= n && 0 <= j <= m && (i == n || j == m)
      invariant RemovalsFirst(out) && (i < n ==> !EndsAdding(out))
      invariant Script(out, before[..i], after[..j])
      invariant |Unchanged(out)| == Lcs(before, after)
    {
      assert before[..i + 1] == before[..i] + [before[i]];
      out := Emit(out, '-', before[i], before[..i], after[..j]);
      i := i + 1;
    }
    while j < m
      invariant i == n && 0 <= j <= m && RemovalsFirst(out)
      invariant Script(out, before[..i], after[..j])
      invariant |Unchanged(out)| == Lcs(before, after)
    {
      assert after[..j + 1] == after[..j] + [after[j]];
      out := Emit(out, '+', after[j], before[..i], after[..j]);
      j := j + 1;
    }
    assert before[..n] == before && after[..m] == after;
    UnchangedCommon(out, before, after);
    forall s | Common(s, before, after)
      ensures |s| <= |Unchanged(out)|
    {
      LcsBounds(s, before, after);
    }
    forall other | Script(other, before, after)
      ensures |out| <= |other|
    {
      LcsScriptIsShortest(out, other, before, after);
    }
  }
}
