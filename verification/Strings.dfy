/** Whitespace trimming, as `strings.TrimSpace` does it on the characters up to U+00FF. */
module Strings {

  predicate IsSpace(c: char) {
    c == ' ' || c == '\t' || c == '\n' || c == '\r' || c as int == 0x0B || c as int == 0x0C || c as int == 0x85 || c as int == 0xA0
  }

  function Trim(s: string): string {
    if s != "" && IsSpace(s[0]) then Trim(s[1..])
    else if s != "" && IsSpace(s[|s| - 1]) then Trim(s[..|s| - 1])
    else s
  }

  lemma {:induction false} TrimTrimmed(s: string)
    ensures Trim(Trim(s)) == Trim(s)
    decreases |s|
  {
    if s != "" && IsSpace(s[0]) {
      TrimTrimmed(s[1..]);
    } else if s != "" && IsSpace(s[|s| - 1]) {
      TrimTrimmed(s[..|s| - 1]);
    }
  }

  predicate AllSpace(s: string) { forall i :: 0 <= i < |s| ==> IsSpace(s[i]) }

  /** What trimming takes away is space at either end, and none is left there. */
  lemma {:induction false} TrimMeans(s: string) returns (before: string, after: string)
    ensures s == before + Trim(s) + after && AllSpace(before) && AllSpace(after)
    ensures Trim(s) != "" ==> !IsSpace(Trim(s)[0]) && !IsSpace(Trim(s)[|Trim(s)| - 1])
    decreases |s|
  {
    hide IsSpace;
    before, after := "", "";
    if s != "" && IsSpace(s[0]) {
      var b, a := TrimMeans(s[1..]);
      Pieces([s[0]], b, Trim(s[1..]), a, "");
      assert s == [s[0]] + s[1..] + "";
      before, after := [s[0]] + b, a + "";
    } else if s != "" && IsSpace(s[|s| - 1]) {
      var b, a := TrimMeans(s[..|s| - 1]);
      Pieces("", b, Trim(s[..|s| - 1]), a, [s[|s| - 1]]);
      assert s == "" + s[..|s| - 1] + [s[|s| - 1]];
      before, after := "" + b, a + [s[|s| - 1]];
    }
  }

  lemma Pieces(x: string, b: string, t: string, a: string, y: string)
    requires AllSpace(x) && AllSpace(b) && AllSpace(a) && AllSpace(y)
    ensures x + (b + t + a) + y == (x + b) + t + (a + y)
    ensures AllSpace(x + b) && AllSpace(a + y)
  {
    hide IsSpace;
  }

  /** The space characters, by number. */
  lemma SpaceIs(c: char)
    ensures IsSpace(c) <==> c as int in {9, 10, 11, 12, 13, 32, 133, 160}
  {}
}
