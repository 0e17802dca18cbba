/** Texts as pieces, some of them secrets; where secrets cross in a text, and which lists
    never do. */
module RedactorPieces {
  import opened Text
  import opened Redactor

  /** A text cut into secrets, markers and the rest. */
  datatype Piece = Plain(s: string) | Secret(s: string) | Marked

  function PieceText(p: Piece): string {
    match p
    case Plain(s) => s
    case Secret(s) => s
    case Marked => MARK
  }

  function Flat(ps: seq<Piece>): string {
    if ps == [] then "" else PieceText(ps[0]) + Flat(ps[1..])
  }

  /** The pieces with every secret masked. */
  function Masked(ps: seq<Piece>): seq<Piece> {
    if ps == [] then [] else [if ps[0].Secret? then Marked else ps[0]] + Masked(ps[1..])
  }

  /** Position `j` to the end of `p` lies within one secret piece. */
  predicate Inside(ps: seq<Piece>, p: string, j: int) {
    ps != [] &&
      ((ps[0].Secret? && 0 <= j && j + |p| <= |ps[0].s|) || Inside(ps[1..], p, j - |PieceText(ps[0])|))
  }

  /** The string occurs nowhere but within secret pieces. */
  ghost predicate OnlyInside(ps: seq<Piece>, p: string) {
    forall j :: OccursAt(Flat(ps), p, j) ==> Inside(ps, p, j)
  }

  ghost predicate SecretsFrom(ps: seq<Piece>, secrets: seq<string>) {
    forall i :: 0 <= i < |ps| && ps[i].Secret? ==> ps[i].s in secrets
  }

  // ---- Pieces -----------------------------------------------------------------------------

  lemma FlatCons(p: Piece, ps: seq<Piece>)
    ensures Flat([p] + ps) == PieceText(p) + Flat(ps)
  {
    assert ([p] + ps)[1..] == ps;
  }

  lemma FlatNone()
    ensures Flat([]) == ""
  {
  }

  lemma {:induction false} FlatAppend(a: seq<Piece>, b: seq<Piece>)
    ensures Flat(a + b) == Flat(a) + Flat(b)
  {
    hide PieceText, Flat;
    if a == [] {
      assert a + b == b;
      FlatNone();
      assert "" + Flat(b) == Flat(b);
    } else {
      FlatAppend(a[1..], b);
      FlatCons(a[0], a[1..]);
      FlatCons(a[0], a[1..] + b);
      assert [a[0]] + a[1..] == a && [a[0]] + (a[1..] + b) == a + b;
      assert PieceText(a[0]) + (Flat(a[1..]) + Flat(b)) == PieceText(a[0]) + Flat(a[1..]) + Flat(b);
    }
  }

  lemma {:induction false} InsideIsAfterStart(ps: seq<Piece>, p: string, j: int)
    requires Inside(ps, p, j)
    ensures j >= 0
  {
    if !(ps[0].Secret? && 0 <= j && j + |p| <= |ps[0].s|) {
      InsideIsAfterStart(ps[1..], p, j - |PieceText(ps[0])|);
    }
  }

  lemma {:induction false} InsideAppend(a: seq<Piece>, b: seq<Piece>, p: string, j: int)
    ensures Inside(a + b, p, j) <==> Inside(a, p, j) || Inside(b, p, j - |Flat(a)|)
  {
    if a == [] {
      assert a + b == b;
    } else {
      InsideAppend(a[1..], b, p, j - |PieceText(a[0])|);
      assert (a + b)[1..] == a[1..] + b;
    }
  }

  // ---- Scrubbing step by step -------------------------------------------------------------------

  /** A beginning in which the secret does not start is kept. */
  lemma ReplaceSkips(head: string, rest: string, s: string)
    requires s != "" && forall j :: 0 <= j < |head| ==> !OccursAt(head + rest, s, j)
    ensures Replace(head + rest, s) == head + Replace(rest, s)
  {
    hide Replace;
    var text := head + rest;
    assert text[|head|..] == rest;
    match FindFirst(rest, s)
    case None =>
      forall j ensures !OccursAt(text, s, j) {
        if OccursAt(text, s, j) {
          FromSuffix(text, |head|, s, j);
        }
      }
      FindsIff(text, s);
      ReplaceNone(text, s);
      ReplaceNone(rest, s);
    case Some(i) =>
      InSuffix(text, |head|, s, i);
      forall j | 0 <= j < |head| + i ensures !OccursAt(text, s, j) {
        if OccursAt(text, s, j) {
          FromSuffix(text, |head|, s, j);
        }
      }
      FirstIs(text, s, |head| + i);
      ReplaceAt(text, s, |head| + i);
      ReplaceAt(rest, s, i);
      assert text[..|head| + i] == head + rest[..i];
      assert text[|head| + i + |s|..] == rest[i + |s|..];
      Regroup(head, rest[..i], MARK, Replace(rest[i + |s|..], s));
  }

  lemma Regroup(a: string, b: string, c: string, d: string)
    ensures a + b + c + d == a + (b + c + d)
  {
  }

  lemma FromSuffix(text: string, n: nat, p: string, j: int)
    requires n <= |text| && OccursAt(text, p, j)
    ensures j >= n ==> OccursAt(text[n..], p, j - n)
  {
    if j >= n {
      assert text[n..][j - n..j - n + |p|] == text[j..j + |p|];
    }
  }

  lemma FrontReplaced(s: string, rest: string)
    requires s != ""
    ensures Replace(s + rest, s) == MARK + Replace(rest, s)
  {
    hide Replace;
    var text := s + rest;
    assert text[..|s|] == s && text[|s|..] == rest;
    FirstIs(text, s, 0);
    ReplaceAt(text, s, 0);
    assert text[..0] == "" && "" + MARK == MARK;
  }

  lemma OccursWithin(text: string, p: string, j: int)
    requires OccursAt(text, p, j)
    ensures j + |p| <= |text|
  {
  }

  lemma {:induction false} MaskedAll(ps: seq<Piece>)
    ensures |Masked(ps)| == |ps|
    ensures forall i :: 0 <= i < |ps| ==> Masked(ps)[i] == if ps[i].Secret? then Marked else ps[i]
  {
    if ps != [] {
      MaskedAll(ps[1..]);
    }
  }

  lemma FirstScrub(text: string, secrets: seq<string>)
    requires secrets != [] && secrets[0] != ""
    ensures Scrubbed(text, secrets) == Scrubbed(Replace(text, secrets[0]), secrets[1..])
  {
    hide Replace;
    if FindFirst(text, secrets[0]).None? {
      ReplaceNone(text, secrets[0]);
    }
  }

  // ---- Any text -----------------------------------------------------------------------------------

  ghost predicate Apart(i: int, p: string, j: int, q: string) {
    || i + |p| <= j || j + |q| <= i
    || (i <= j && j + |q| <= i + |p|) || (j <= i && i + |p| <= j + |q|)
  }

  /** Any two occurrences of secrets are disjoint, or one lies within the other. */
  ghost predicate DisjointOrNested(text: string, secrets: seq<string>) {
    forall p, q, i, j :: p in secrets && q in secrets && OccursAt(text, p, i) && OccursAt(text, q, j) ==>
      Apart(i, p, j, q)
  }

  // ---- Which lists never cross -----------------------------------------------------------------------

  /** A proper end of one is a proper beginning of the other. */
  ghost predicate Overlap(p: string, q: string) {
    exists k :: 0 < k < |p| && k < |q| && p[|p| - k..] == q[..k]
  }

  ghost predicate NoneOverlap(secrets: seq<string>) {
    forall p, q :: p in secrets && q in secrets ==> !Overlap(p, q)
  }

  lemma CrossingOverlaps(text: string, p: string, q: string, i: int, j: int)
    requires OccursAt(text, p, i) && OccursAt(text, q, j) && i < j < i + |p| < j + |q|
    ensures p[j - i..] == q[..i + |p| - j] && Overlap(p, q)
  {
    var k := i + |p| - j;
    assert |p| - k == j - i;
    assert p[|p| - k..] == text[j..i + |p|] by { assert text[i..i + |p|][|p| - k..] == text[j..i + |p|]; }
    assert q[..k] == text[j..i + |p|] by { assert text[j..j + |q|][..k] == text[j..i + |p|]; }
  }

  lemma OverlapCrosses(p: string, q: string, k: int)
    requires 0 < k < |p| && k < |q| && p[|p| - k..] == q[..k]
    ensures OccursAt(p + q[k..], p, 0) && OccursAt(p + q[k..], q, |p| - k)
    ensures !Apart(0, p, |p| - k, q)
  {
    var text := p + q[k..];
    assert text[0..|p|] == p;
    assert text[|p| - k..] == q[..k] + q[k..] == q;
  }

  /** In every text the secrets occur disjoint or nested if and only if no proper end of
      one is a proper beginning of one. */
  lemma AlwaysApartIff(secrets: seq<string>)
    ensures (forall text :: DisjointOrNested(text, secrets)) <==> NoneOverlap(secrets)
  {
    hide OccursAt, Overlap;
    if NoneOverlap(secrets) {
      forall text, p, q, i, j | p in secrets && q in secrets && OccursAt(text, p, i) && OccursAt(text, q, j)
        ensures Apart(i, p, j, q)
      {
        if i < j < i + |p| < j + |q| {
          CrossingOverlaps(text, p, q, i, j);
        } else if j < i < j + |q| < i + |p| {
          CrossingOverlaps(text, q, p, j, i);
        }
      }
    } else {
      var p, q :| p in secrets && q in secrets && Overlap(p, q);
      var k := OverlapAt(p, q);
      OverlapCrosses(p, q, k);
      assert !DisjointOrNested(p + q[k..], secrets);
    }
  }

  lemma OverlapAt(p: string, q: string) returns (k: int)
    requires Overlap(p, q)
    ensures 0 < k < |p| && k < |q| && p[|p| - k..] == q[..k]
  {
    k :| 0 < k < |p| && k < |q| && p[|p| - k..] == q[..k];
  }

  // ---- In the wrong order --------------------------------------------------------------------------------

  lemma NotBehindMark(z: string, t: string)
    requires t != "" && !Clash(t) && |z| < |t|
    ensures !Occurs(MARK + z, t)
  {
    hide Clash;
    assert "" + MARK + z == MARK + z;
    forall i ensures !OccursAt(MARK + z, t, i) {
      if OccursAt(MARK + z, t, i) {
        NotAcrossMark("", z, t, i);
      }
    }
  }

  lemma TwoScrubs(text: string, s: string, z: string, t: string)
    requires s != "" && t != "" && !Clash(t) && |z| < |t| && Replace(text, s) == MARK + z
    ensures Scrubbed(text, [s, t]) == MARK + z
  {
    hide Replace, Clash;
    FirstScrub(text, [s, t]);
    assert [s, t][1..] == [t] && [t][1..] == [];
    NotBehindMark(z, t);
    FirstScrub(MARK + z, [t]);
    FindsIff(MARK + z, t);
    ReplaceNone(MARK + z, t);
  }

  /** With the shorter first, any secret that starts with another one leaves the rest of
      itself readable, unless the shorter one occurs there too. */
  lemma ShorterFirstLeaks(s: string, z: string)
    requires s != "" && z != "" && !Clash(s + z) && !Occurs(z, s)
    ensures Scrubbed(s + z, [s, s + z]) == MARK + z
  {
    hide Replace, Clash;
    FrontReplaced(s, z);
    FindsIff(z, s);
    ReplaceNone(z, s);
    TwoScrubs(s + z, s, z, s + z);
  }
}
