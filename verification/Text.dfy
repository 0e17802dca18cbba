/** Strings as the three languages of the system see them: first occurrence of
    a pattern, and splitting into lines and joining them again. */
module Text {

  datatype Option<+T> = None | Some(value: T)

  predicate OccursAt(s: string, pat: string, i: int) {
    0 <= i && i + |pat| <= |s| && s[i..i + |pat|] == pat
  }

  ghost predicate Occurs(s: string, pat: string) {
    exists i :: OccursAt(s, pat, i)
  }

  /** Smallest position at or after `from` where `pat` occurs. */
  function FindFrom(s: string, pat: string, from: nat): (r: Option<nat>)
    requires from <= |s|
    ensures r.Some? ==> from <= r.value && OccursAt(s, pat, r.value)
    ensures forall j :: from <= j && (r.Some? ==> j < r.value) ==> !OccursAt(s, pat, j)
    decreases |s| - from
  {
    if OccursAt(s, pat, from) then Some(from)
    else if from == |s| then None
    else FindFrom(s, pat, from + 1)
  }

  /** Smallest position where `pat` occurs. */
  function FindFirst(s: string, pat: string): (r: Option<nat>)
    ensures r.Some? ==> OccursAt(s, pat, r.value)
    ensures forall j :: 0 <= j && (r.Some? ==> j < r.value) ==> !OccursAt(s, pat, j)
  {
    FindFrom(s, pat, 0)
  }

  lemma FirstIs(s: string, pat: string, i: nat)
    requires OccursAt(s, pat, i)
    requires forall j :: 0 <= j < i ==> !OccursAt(s, pat, j)
    ensures FindFirst(s, pat) == Some(i)
  {
  }

  /** An occurrence in the middle part of `a + b + c` is one in `b`. */
  lemma OccursShift(a: string, b: string, c: string, pat: string, i: int)
    requires |a| <= i && i + |pat| <= |a| + |b|
    ensures OccursAt(a + b + c, pat, i) <==> OccursAt(b, pat, i - |a|)
  {
    assert (a + b + c)[i..i + |pat|] == b[i - |a|..i - |a| + |pat|];
  }

  lemma Mismatch(s: string, pat: string, i: nat, k: nat)
    requires k < |pat| && i + k < |s| && s[i + k] != pat[k]
    ensures !OccursAt(s, pat, i)
  {
    if i + |pat| <= |s| {
      assert s[i..i + |pat|][k] == s[i + k];
    }
  }

  predicate StartsWith(s: string, prefix: string) {
    |prefix| <= |s| && s[..|prefix|] == prefix
  }

  lemma StartsWithSameFirst(s: string, prefix: string)
    requires StartsWith(s, prefix) && prefix != ""
    ensures s[0] == prefix[0]
  {
    assert s[..|prefix|][0] == s[0];
  }

  /** Pieces between line feeds; there is always at least one. */
  function SplitLines(s: string): (r: seq<string>)
    ensures |r| >= 1
  {
    if s == "" then [""]
    else
      var rest := SplitLines(s[1..]);
      if s[0] == '\n' then [""] + rest
      else [[s[0]] + rest[0]] + rest[1..]
  }

  function JoinLines(p: seq<string>): string
  {
    if |p| == 0 then ""
    else if |p| == 1 then p[0]
    else p[0] + "\n" + JoinLines(p[1..])
  }

  predicate OneLine(s: string) { '\n' !in s }

  ghost predicate AllOneLine(p: seq<string>) {
    forall i :: 0 <= i < |p| ==> OneLine(p[i])
  }

  lemma {:induction false} SplitPieces(s: string)
    ensures AllOneLine(SplitLines(s))
  {
    if s != "" {
      SplitPieces(s[1..]);
    }
  }

  lemma {:induction false} JoinOfSplit(s: string)
    ensures JoinLines(SplitLines(s)) == s
  {
    if s != "" {
      JoinOfSplit(s[1..]);
      var rest := SplitLines(s[1..]);
      if s[0] == '\n' {
        assert ([""] + rest)[1..] == rest;
      } else {
        var first := [s[0]] + rest[0];
        assert ([first] + rest[1..])[1..] == rest[1..];
        if |rest| > 1 {
          assert first + "\n" + JoinLines(rest[1..]) == [s[0]] + (rest[0] + "\n" + JoinLines(rest[1..]));
        }
      }
    }
  }

  /** A line put in front of a text becomes its first piece. */
  lemma {:induction false} SplitAfterLine(line: string, rest: string)
    requires OneLine(line)
    ensures SplitLines(line + "\n" + rest) == [line] + SplitLines(rest)
  {
    var whole := line + "\n" + rest;
    if line == "" {
      assert whole[1..] == rest;
    } else {
      SplitAfterLine(line[1..], rest);
      assert line[0] in line && whole[0] == line[0];
      assert whole[1..] == line[1..] + "\n" + rest;
      assert [line[0]] + line[1..] == line;
      assert ([line[1..]] + SplitLines(rest))[1..] == SplitLines(rest);
    }
  }

  /** A line feed between two texts separates their pieces. */
  lemma {:induction false} SplitAround(a: string, b: string)
    ensures SplitLines(a + "\n" + b) == SplitLines(a) + SplitLines(b)
  {
    hide SplitLines;
    var whole := a + "\n" + b;
    SplitStep(whole);
    SplitStep(a);
    if a == "" {
      assert whole[1..] == b;
    } else {
      SplitAround(a[1..], b);
      assert whole[0] == a[0];
      assert whole[1..] == a[1..] + "\n" + b;
      var rest := SplitLines(a[1..]);
      assert (rest + SplitLines(b))[1..] == rest[1..] + SplitLines(b);
    }
  }

  lemma SplitStep(s: string)
    ensures s == "" ==> SplitLines(s) == [""]
    ensures s != "" && s[0] == '\n' ==> SplitLines(s) == [""] + SplitLines(s[1..])
    ensures s != "" && s[0] != '\n' ==>
      SplitLines(s) == [[s[0]] + SplitLines(s[1..])[0]] + SplitLines(s[1..])[1..]
  {
  }

  lemma {:induction false} SplitOneLine(line: string)
    requires OneLine(line)
    ensures SplitLines(line) == [line]
  {
    if line != "" {
      assert line[0] in line;
      SplitOneLine(line[1..]);
      assert [line[0]] + line[1..] == line;
    }
  }

  lemma {:induction false} SplitOfJoin(p: seq<string>)
    requires |p| >= 1 && AllOneLine(p)
    ensures SplitLines(JoinLines(p)) == p
  {
    if |p| == 1 {
      SplitOneLine(p[0]);
    } else {
      SplitOfJoin(p[1..]);
      SplitAfterLine(p[0], JoinLines(p[1..]));
    }
  }

  function Concat(parts: seq<string>): string {
    if |parts| == 0 then "" else parts[0] + Concat(parts[1..])
  }

  lemma {:induction false} ConcatAppend(a: seq<string>, b: seq<string>)
    ensures Concat(a + b) == Concat(a) + Concat(b)
  {
    if a == [] {
      assert a + b == b;
      assert "" + Concat(b) == Concat(b);
    } else {
      ConcatAppend(a[1..], b);
      assert (a + b)[1..] == a[1..] + b;
      assert a[0] + (Concat(a[1..]) + Concat(b)) == a[0] + Concat(a[1..]) + Concat(b);
    }
  }

  lemma ConcatSnoc(a: seq<string>, x: string)
    ensures Concat(a + [x]) == Concat(a) + x
  {
    ConcatAppend(a, [x]);
    assert Concat([x]) == x;
  }

  function LowerChar(c: char): char {
    if 'A' <= c <= 'Z' then c - 'A' + 'a' else c
  }

  /** ASCII lower case. */
  function Lower(s: string): (r: string)
    ensures |r| == |s| && forall i :: 0 <= i < |s| ==> r[i] == LowerChar(s[i])
  {
    seq(|s|, i requires 0 <= i < |s| => LowerChar(s[i]))
  }
}
