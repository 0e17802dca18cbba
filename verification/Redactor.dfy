/** Replacing secrets in text: what `str.replace` with a marker guarantees, for one
    secret and for the filter's whole list. */
module Redactor {
  import opened Text

  const MARK := "***REDACTED***"
  const MIN_LEN := 8

  /** `str.replace`: occurrences from the left, none overlapping, nothing rescanned. */
  function Replace(text: string, s: string): string
    requires s != ""
    decreases |text|
  {
    match FindFirst(text, s)
    case None => text
    case Some(i) => text[..i] + MARK + Replace(text[i + |s|..], s)
  }

  lemma ReplaceAt(text: string, s: string, i: nat)
    requires s != "" && FindFirst(text, s) == Some(i)
    ensures Replace(text, s) == text[..i] + MARK + Replace(text[i + |s|..], s)
  {
  }

  lemma FindsIff(text: string, s: string)
    ensures FindFirst(text, s).Some? <==> Occurs(text, s)
  {
  }

  function Scrubbed(text: string, secrets: seq<string>): string
    decreases |secrets|
  {
    if secrets == [] then text
    else
      var s := secrets[0];
      Scrubbed(if s != "" && FindFirst(text, s).Some? then Replace(text, s) else text, secrets[1..])
  }

  /** `_scrub`. */
  method Scrub(value: string, secrets: seq<string>) returns (r: string)
    ensures r == Scrubbed(value, secrets)
  {
    r := value;
    for i := 0 to |secrets|
      invariant Scrubbed(r, secrets[i..]) == Scrubbed(value, secrets)
    {
      var s := secrets[i];
      assert secrets[i..][0] == s && secrets[i..][1..] == secrets[i + 1..];
      if s != "" && FindFirst(r, s).Some? {
        r := Replace(r, s);
      }
    }
  }

  // ---- One secret ---------------------------------------------------------------------

  /** The secret laid over the marker, its first character at position `d`, differs
      from it nowhere. */
  ghost predicate Agrees(s: string, d: int) {
    forall k :: 0 <= k < |s| && 0 <= d + k < |MARK| ==> s[k] == MARK[d + k]
  }

  /** Some overlap of the secret with the marker agrees. */
  ghost predicate Clash(s: string) {
    exists d :: -|s| < d < |MARK| && Agrees(s, d)
  }

  lemma AcrossIsClash(a: string, b: string, s: string, i: int)
    requires OccursAt(a + MARK + b, s, i) && i < |a| + |MARK| && i + |s| > |a|
    ensures Clash(s)
  {
    var whole, d := a + MARK + b, i - |a|;
    forall k | 0 <= k < |s| && 0 <= d + k < |MARK| ensures s[k] == MARK[d + k] {
      assert s[k] == whole[i..i + |s|][k] == whole[i + k];
    }
    assert Agrees(s, d);
  }

  /** Around a marker, a secret that does not clash lies wholly on one side. */
  lemma NotAcrossMark(a: string, b: string, s: string, i: int)
    requires s != "" && !Clash(s) && OccursAt(a + MARK + b, s, i)
    ensures OccursAt(a, s, i) || OccursAt(b, s, i - |a| - |MARK|)
  {
    if i + |s| <= |a| {
      OccursShift("", a, MARK + b, s, i);
      assert "" + a + (MARK + b) == a + MARK + b;
    } else if i >= |a| + |MARK| {
      OccursShift(a + MARK, b, "", s, i);
      assert a + MARK + b + "" == a + MARK + b;
    } else {
      AcrossIsClash(a, b, s, i);
    }
  }

  /** Replacing one secret brings in no other, and leaves none of its own. */
  lemma {:induction false} ReplaceBringsNothing(text: string, s: string, p: string)
    requires s != "" && p != "" && !Clash(p)
    ensures Occurs(Replace(text, s), p) ==> Occurs(text, p) && p != s
    decreases |text|
  {
    hide Clash, Replace;
    match FindFirst(text, s)
    case None =>
      ReplaceNone(text, s);
    case Some(i) =>
      var a, rest := text[..i], text[i + |s|..];
      ReplaceAt(text, s, i);
      ReplaceBringsNothing(rest, s, p);
      if Occurs(Replace(text, s), p) {
        var j :| OccursAt(Replace(text, s), p, j);
        NotAcrossMark(a, Replace(rest, s), p, j);
        if OccursAt(a, p, j) {
          InPrefix(text, i, p, j);
        } else {
          var j' :| OccursAt(rest, p, j');
          InSuffix(text, i + |s|, p, j');
        }
      }
  }

  lemma InPrefix(text: string, n: nat, p: string, j: int)
    requires n <= |text| && OccursAt(text[..n], p, j)
    ensures OccursAt(text, p, j)
  {
    assert text[j..j + |p|] == text[..n][j..j + |p|];
  }

  lemma InSuffix(text: string, n: nat, p: string, j: int)
    requires n <= |text| && OccursAt(text[n..], p, j)
    ensures OccursAt(text, p, n + j)
  {
    assert text[n + j..n + j + |p|] == text[n..][j..j + |p|];
  }

  lemma ReplaceNone(text: string, s: string)
    requires s != "" && FindFirst(text, s).None?
    ensures Replace(text, s) == text && !Occurs(text, s)
  {
  }

  // ---- The list -------------------------------------------------------------------------

  ghost predicate Safe(secrets: seq<string>) {
    forall s :: s in secrets ==> s != "" && !Clash(s)
  }

  ghost predicate Clean(text: string, secrets: seq<string>) {
    forall s :: s in secrets ==> !Occurs(text, s)
  }

  lemma {:induction false} ScrubBringsNothing(text: string, secrets: seq<string>, p: string)
    requires p != "" && !Clash(p)
    ensures Occurs(Scrubbed(text, secrets), p) ==> Occurs(text, p) && p !in secrets
    decreases |secrets|
  {
    hide Clash, Replace, Occurs;
    if secrets != [] {
      var s := secrets[0];
      var next := if s != "" && FindFirst(text, s).Some? then Replace(text, s) else text;
      ScrubBringsNothing(next, secrets[1..], p);
      if s != "" {
        ReplaceBringsNothing(text, s, p);
        if FindFirst(text, s).None? {
          ReplaceNone(text, s);
        }
      }
    }
  }

  /** Nothing of a clean text is changed. */
  lemma {:induction false} CleanIsKept(text: string, secrets: seq<string>)
    requires Clean(text, secrets)
    ensures Scrubbed(text, secrets) == text
  {
    if secrets != [] {
      assert secrets[0] in secrets;
      FindsIff(text, secrets[0]);
      CleanIsKept(text, secrets[1..]);
    }
  }

  /** After a scrub no secret is left anywhere in the text, and a second scrub changes
      nothing. */
  lemma ScrubHides(text: string, secrets: seq<string>)
    requires Safe(secrets)
    ensures Clean(Scrubbed(text, secrets), secrets)
    ensures Scrubbed(Scrubbed(text, secrets), secrets) == Scrubbed(text, secrets)
  {
    hide Clash;
    forall s | s in secrets ensures !Occurs(Scrubbed(text, secrets), s) {
      ScrubBringsNothing(text, secrets, s);
    }
    CleanIsKept(Scrubbed(text, secrets), secrets);
  }

  lemma AgreesPlain(s: string, d: int)
    requires |s| >= MIN_LEN && -|s| < d < |MARK| && Agrees(s, d)
    ensures '*' in s || s == "REDACTED"
  {
    if d < 0 {
      assert s[-d] == MARK[d + -d];
    } else if d < 3 || d >= 11 {
      assert s[0] == MARK[d + 0];
    } else if d + |s| > 11 {
      assert s[11 - d] == MARK[d + (11 - d)];
    } else {
      forall k | 0 <= k < |s| ensures s[k] == "REDACTED"[k] {
        assert s[k] == MARK[d + k];
      }
      assert s == "REDACTED";
    }
  }

  /** The secrets the filter accepts, if free of stars and other than the marker's own
      word, do not clash. */
  lemma PlainIsSafe(s: string)
    requires |s| >= MIN_LEN && '*' !in s && s != "REDACTED"
    ensures !Clash(s)
  {
    if Clash(s) {
      var d :| -|s| < d < |MARK| && Agrees(s, d);
      AgreesPlain(s, d);
    }
  }

  // ---- Exactly when one secret is safe ---------------------------------------------------

  ghost predicate AlwaysHidden(s: string)
    requires s != ""
  {
    forall text :: !Occurs(Replace(text, s), s)
  }

  lemma ShorterHasNone(text: string, s: string)
    requires s != "" && |text| < |s|
    ensures Replace(text, s) == text
  {
  }

  lemma OccursFrom(text: string, s: string, i: nat)
    requires i + |s| <= |text| && forall k :: 0 <= k < |s| ==> text[i + k] == s[k]
    ensures Occurs(text, s)
  {
    assert text[i..i + |s|] == s;
    assert OccursAt(text, s, i);
  }

  /** One occurrence, with too little after it for another. */
  lemma ReplaceOnce(u: string, s: string, v: string)
    requires s != "" && |v| < |s|
    requires forall j :: 0 <= j < |u| ==> !OccursAt(u + s + v, s, j)
    ensures Replace(u + s + v, s) == u + MARK + v
  {
    hide Replace;
    var text := u + s + v;
    assert OccursAt(text, s, |u|) by { assert text[|u|..|u| + |s|] == s; }
    FirstIs(text, s, |u|);
    ReplaceAt(text, s, |u|);
    assert text[..|u|] == u && text[|u| + |s|..] == v;
    ShorterHasNone(v, s);
  }

  /** Starts inside the marker: the rest of the secret after it completes it. */
  lemma ClashFromMark(s: string, d: nat)
    requires s != "" && d < |MARK| && Agrees(s, d)
    ensures !AlwaysHidden(s)
  {
    hide Replace;
    var z := if d + |s| > |MARK| then s[|MARK| - d..] else "";
    ReplaceOnce("", s, z);
    OccursFrom("" + MARK + z, s, d);
  }

  lemma StarFirst(s: string)
    requires s != "" && s[0] == '*'
    ensures !AlwaysHidden(s)
  {
    hide Replace;
    ReplaceOnce("", s, s[1..]);
    OccursFrom("" + MARK + s[1..], s, |MARK| - 1);
  }

  /** A secret after its own beginning occurs no earlier, unless it starts as the
      remainder does. */
  lemma EarlierOccurrence(s: string, m: nat, v: string, j: nat)
    requires 0 <= j < m < |s| && OccursAt(s[..m] + s + v, s, j)
    ensures s[m] == s[0]
  {
    var text := s[..m] + s + v;
    assert text[j..j + |s|][0] == text[j] == s[j];
    assert text[j..j + |s|][m] == text[j + m] == s[j];
  }

  lemma BeginningThenMark(s: string, m: nat, v: string)
    requires 0 < m < |s| && Agrees(s, 0 - m)
    requires v == if |s| > m + |MARK| then s[m + |MARK|..] else ""
    ensures Occurs(s[..m] + MARK + v, s)
  {
    var out := s[..m] + MARK + v;
    forall k | m <= k < |s| && k < m + |MARK| ensures out[k] == s[k] {
      assert s[k] == MARK[0 - m + k];
    }
    OccursFrom(out, s, 0);
  }

  /** Runs into the marker from before it. */
  lemma ClashIntoMark(s: string, m: nat)
    requires 0 < m < |s| && Agrees(s, 0 - m) && s[0] != '*'
    ensures !AlwaysHidden(s)
  {
    hide Replace, OccursAt;
    assert s[m] == MARK[0 - m + m];
    var v := if |s| > m + |MARK| then s[m + |MARK|..] else "";
    forall j | 0 <= j < m ensures !OccursAt(s[..m] + s + v, s, j) {
      if OccursAt(s[..m] + s + v, s, j) {
        EarlierOccurrence(s, m, v, j);
      }
    }
    ReplaceOnce(s[..m], s, v);
    BeginningThenMark(s, m, v);
  }

  /** Replacing one secret always hides it if and only if it does not clash with the
      marker. */
  lemma HiddenIffNoClash(s: string)
    requires s != ""
    ensures AlwaysHidden(s) <==> !Clash(s)
  {
    hide Replace, AlwaysHidden;
    if Clash(s) {
      var d :| -|s| < d < |MARK| && Agrees(s, d);
      if d >= 0 {
        ClashFromMark(s, d);
      } else if s[0] == '*' {
        StarFirst(s);
      } else {
        ClashIntoMark(s, -d);
      }
    } else {
      NoClashHides(s);
    }
  }

  lemma NoClashHides(s: string)
    requires s != "" && !Clash(s)
    ensures AlwaysHidden(s)
  {
    hide Replace, Clash;
    forall text ensures !Occurs(Replace(text, s), s) {
      ReplaceBringsNothing(text, s, s);
    }
  }

  // ---- Why the longest come first ----------------------------------------------------------

  ghost predicate LongestFirst(secrets: seq<string>) {
    && (forall i, j :: 0 <= i < j < |secrets| ==> |secrets[i]| >= |secrets[j]|)
    && (forall i, j :: 0 <= i < j < |secrets| ==> secrets[i] != secrets[j])
  }

  lemma OnlyItself(text: string, s: string, i: int)
    requires |s| >= |text| && OccursAt(text, s, i)
    ensures s == text
  {
    assert text[i..i + |s|] == text;
  }

  lemma InMarkIsClash(s: string, i: int)
    requires s != "" && OccursAt(MARK, s, i)
    ensures Clash(s)
  {
    assert "" + MARK + "" == MARK;
    AcrossIsClash("", "", s, i);
  }

  lemma {:induction false} MarkIsKept(secrets: seq<string>)
    requires Safe(secrets)
    ensures Scrubbed(MARK, secrets) == MARK
  {
    hide Clash;
    forall s, i | s in secrets ensures !OccursAt(MARK, s, i) {
      if OccursAt(MARK, s, i) {
        InMarkIsClash(s, i);
      }
    }
    CleanIsKept(MARK, secrets);
  }

  /** A text that is one of the secrets becomes the marker alone: no longer secret
      leaves a part of it behind. */
  lemma {:induction false} WholeSecret(secrets: seq<string>, n: nat)
    requires Safe(secrets) && LongestFirst(secrets) && n < |secrets|
    ensures Scrubbed(secrets[n], secrets) == MARK
    decreases n
  {
    hide Clash;
    var s := secrets[0];
    assert s in secrets;
    if n == 0 {
      assert s[..|s|] == s;
      FirstIs(s, s, 0);
      ReplaceAt(s, s, 0);
      ShorterHasNone("", s);
      assert Replace(s, s) == MARK;
      MarkIsKept(secrets[1..]);
    } else {
      forall i ensures !OccursAt(secrets[n], s, i) {
        if OccursAt(secrets[n], s, i) {
          OnlyItself(secrets[n], s, i);
        }
      }
      FindsIff(secrets[n], s);
      WholeSecret(secrets[1..], n - 1);
    }
  }
}
