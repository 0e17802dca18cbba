/** A text put together from parts that are scrubbed one by one, as a log line is: exactly
    which secrets can still be read in it. */
module RedactorParts {
  import opened Text
  import opened Redactor
  import opened RedactorPieces
  import opened RedactorCut

  // ---- What can still be read ------------------------------------------------------------

  /** None of the `n` positions from `j` is masked. */
  predicate Untouched(ps: seq<Piece>, j: int, n: nat) {
    forall x :: j <= x < j + n ==> !InSecret(ps, x)
  }

  /** The secret occurs there, and nothing of it is masked. */
  predicate Survives(ps: seq<Piece>, s: string, j: int) {
    OccursAt(Flat(ps), s, j) && Untouched(ps, j, |s|)
  }

  ghost predicate NoneSurvives(ps: seq<Piece>, secrets: seq<string>) {
    forall s, j :: s in secrets ==> !Survives(ps, s, j)
  }

  lemma {:induction false} NoSecretPiece(ps: seq<Piece>)
    requires Marked !in ps && forall i :: 0 <= i < |ps| ==> !ps[i].Secret?
    ensures Masked(ps) == ps && forall x :: !InSecret(ps, x)
  {
    MaskedAll(ps);
    if ps != [] {
      NoSecretPiece(ps[1..]);
    }
  }

  /** Around a secret piece: the masked text, and what survives on either side. */
  lemma AroundSecret(a: seq<Piece>, e: string, b: seq<Piece>, s: string, j: int)
    requires e != "" && s != ""
    ensures Survives(a + [Secret(e)] + b, s, j) <==> Survives(a, s, j) || Survives(b, s, j - |Flat(a)| - |e|)
  {
    hide Flat, InSecret;
    var ps, m, k := a + [Secret(e)] + b, |Flat(a)|, |Flat(a)| + |e|;
    FlatThree(a, Secret(e), b);
    var text := Flat(ps);
    assert text[0..m] == Flat(a) && text[k..|text|] == Flat(b);
    forall x ensures InSecret(ps, x) <==>
      if x < m then InSecret(a, x) else x < k || InSecret(b, x - k)
    {
      FlatAppend(a, [Secret(e)]);
      FlatOne(Secret(e));
      InSecretAppend(a + [Secret(e)], b, x);
      InSecretAppend(a, [Secret(e)], x);
      InOne(e, x - m);
    }
    PartOccurs(text, 0, m, s, j);
    PartOccurs(text, k, |text|, s, j - k);
    if Survives(ps, s, j) {
      OccursWithin(text, s, j);
      if j < k && j + |s| > m {
        var x := if j < m then m else j;
        assert InSecret(ps, x);
      }
      if j >= k {
        UntouchedAfter(ps, b, k, j, |s|);
      }
    }
    if Survives(b, s, j - k) {
      UntouchedAfter(ps, b, k, j, |s|);
    }
  }

  lemma UntouchedAfter(ps: seq<Piece>, b: seq<Piece>, k: int, j: int, n: nat)
    requires k <= j && forall x :: x >= k ==> (InSecret(ps, x) <==> InSecret(b, x - k))
    ensures Untouched(ps, j, n) <==> Untouched(b, j - k, n)
  {
    hide InSecret;
    if Untouched(ps, j, n) {
      forall x | j - k <= x < j - k + n ensures !InSecret(b, x) {
        assert !InSecret(ps, x + k);
      }
    }
  }

  /** What is read after masking is what occurred before and was not touched: masking
      neither makes a secret nor joins the halves of one. */
  lemma {:induction false} ReadIffSurvives(ps: seq<Piece>, s: string)
    requires Tight(ps) && s != "" && !Clash(s)
    ensures Occurs(Flat(Masked(ps)), s) <==> exists j :: Survives(ps, s, j)
    decreases |ps|
  {
    hide Clash, Flat, InSecret, Untouched, Masked, OccursAt;
    if k: nat :| k < |ps| && ps[k].Secret? && forall i :: 0 <= i < k ==> !ps[i].Secret? {
      var a, e, b := ps[..k], ps[k].s, ps[k + 1..];
      assert ps == a + [Secret(e)] + b && Secret(e) in ps;
      ReadIffSurvives(b, s);
      NoSecretPiece(a);
      MaskedThree(a, e, b);
      FlatThree(a, Marked, Masked(b));
      var before, after := Flat(a), Flat(Masked(b));
      ReadAround(before, after, s);
      forall j ensures Survives(ps, s, j) <==> Survives(a, s, j) || Survives(b, s, j - |before| - |e|) {
        AroundSecret(a, e, b, s, j);
      }
      UntouchedPlain(a);
      assert forall j :: Survives(a, s, j) <==> OccursAt(before, s, j);
      if j :| Survives(b, s, j) {
        assert Survives(ps, s, j + |before| + |e|);
      }
    } else {
      NoSecrets(ps);
      NoSecretPiece(ps);
      UntouchedPlain(ps);
      assert forall j :: Survives(ps, s, j) <==> OccursAt(Flat(ps), s, j);
    }
  }

  lemma UntouchedPlain(ps: seq<Piece>)
    requires forall x :: !InSecret(ps, x)
    ensures forall j, n: nat :: Untouched(ps, j, n)
  {
  }

  lemma ReadAround(a: string, b: string, s: string)
    requires s != "" && !Clash(s)
    ensures Occurs(a + MARK + b, s) <==> Occurs(a, s) || Occurs(b, s)
  {
    hide Clash, OccursAt;
    var whole := a + MARK + b;
    if j :| OccursAt(whole, s, j) {
      NotAcrossMark(a, b, s, j);
    }
    if j :| OccursAt(a, s, j) {
      assert whole[..|a|] == a;
      InPrefix(whole, |a|, s, j);
    }
    if j :| OccursAt(b, s, j) {
      assert whole[|a| + |MARK|..] == b;
      InSuffix(whole, |a| + |MARK|, s, j);
    }
  }

  lemma {:induction false} NoSecrets(ps: seq<Piece>)
    requires forall k: nat :: k < |ps| && ps[k].Secret? ==> exists i :: 0 <= i < k && ps[i].Secret?
    ensures forall k :: 0 <= k < |ps| ==> !ps[k].Secret?
  {
    forall k: nat | k < |ps| ensures !ps[k].Secret? {
      NotFirstSecret(ps, k);
    }
  }

  lemma {:induction false} NotFirstSecret(ps: seq<Piece>, k: nat)
    requires forall m: nat :: m < |ps| && ps[m].Secret? ==> exists i :: 0 <= i < m && ps[i].Secret?
    requires k < |ps|
    ensures !ps[k].Secret?
  {
    if ps[k].Secret? {
      var i :| 0 <= i < k && ps[i].Secret?;
      NotFirstSecret(ps, i);
    }
  }

  // ---- Lines ------------------------------------------------------------------------------------

  /** A part of a line; `scrubbed` if the pass goes over it. */
  datatype Part = Part(text: string, scrubbed: bool)

  function Line(parts: seq<Part>): string {
    if parts == [] then "" else parts[0].text + Line(parts[1..])
  }

  function AfterPass(parts: seq<Part>, secrets: seq<string>): string {
    if parts == [] then ""
    else (if parts[0].scrubbed then Scrubbed(parts[0].text, secrets) else parts[0].text) + AfterPass(parts[1..], secrets)
  }

  function PartPieces(p: Part, secrets: seq<string>): seq<Piece> {
    if p.scrubbed then Cut(p.text, secrets) else [Plain(p.text)]
  }

  function LinePieces(parts: seq<Part>, secrets: seq<string>): seq<Piece> {
    if parts == [] then [] else PartPieces(parts[0], secrets) + LinePieces(parts[1..], secrets)
  }

  lemma PartIsPieces(p: Part, secrets: seq<string>)
    ensures Flat(PartPieces(p, secrets)) == p.text && Tight(PartPieces(p, secrets))
    ensures Safe(secrets) ==>
      Flat(Masked(PartPieces(p, secrets))) == if p.scrubbed then Scrubbed(p.text, secrets) else p.text
  {
    hide Cut, Scrubbed, Flat, Safe, Masked;
    CutIsText(p.text, secrets);
    if Safe(secrets) {
      ScrubCut(p.text, secrets);
    }
    if !p.scrubbed {
      NoSecretPiece([Plain(p.text)]);
      FlatOne(Plain(p.text));
    }
  }

  lemma MaskedAppend(a: seq<Piece>, b: seq<Piece>)
    ensures Masked(a + b) == Masked(a) + Masked(b)
  {
    MaskedAll(a);
    MaskedAll(b);
    MaskedAll(a + b);
  }

  lemma {:induction false} LineIsPieces(parts: seq<Part>, secrets: seq<string>)
    ensures Flat(LinePieces(parts, secrets)) == Line(parts) && Tight(LinePieces(parts, secrets))
    ensures Safe(secrets) ==> Flat(Masked(LinePieces(parts, secrets))) == AfterPass(parts, secrets)
  {
    hide Flat, PartPieces, Masked, Safe, Scrubbed;
    if parts == [] {
      FlatNone();
      MaskedAll([]);
    } else {
      LineIsPieces(parts[1..], secrets);
      PartIsPieces(parts[0], secrets);
      var a, b := PartPieces(parts[0], secrets), LinePieces(parts[1..], secrets);
      FlatAppend(a, b);
      MaskedAppend(a, b);
      FlatAppend(Masked(a), Masked(b));
    }
  }

  /** With its parts scrubbed one by one, a line shows no secret if and only if every
      occurrence in the line as it was is touched by what is masked within the parts. */
  lemma LineCleanIff(parts: seq<Part>, secrets: seq<string>)
    requires Safe(secrets)
    ensures Clean(AfterPass(parts, secrets), secrets) <==> NoneSurvives(LinePieces(parts, secrets), secrets)
  {
    hide Clash, Survives, LinePieces, AfterPass, Flat, Masked, Occurs;
    LineIsPieces(parts, secrets);
    forall s | s in secrets
      ensures Occurs(AfterPass(parts, secrets), s) <==> exists j :: Survives(LinePieces(parts, secrets), s, j)
    {
      ReadIffSurvives(LinePieces(parts, secrets), s);
    }
  }

  /** The `n` positions from `j` are in one part the pass goes over. */
  predicate WithinScrubbed(parts: seq<Part>, j: int, n: nat) {
    parts != [] &&
      ((parts[0].scrubbed && 0 <= j && j + n <= |parts[0].text|)
       || WithinScrubbed(parts[1..], j - |parts[0].text|, n))
  }

  /** What survives runs across parts, or is in a part left alone. */
  lemma {:induction false} SurvivorStraddles(parts: seq<Part>, secrets: seq<string>, s: string, j: int)
    requires Safe(secrets) && s in secrets && Survives(LinePieces(parts, secrets), s, j)
    ensures !WithinScrubbed(parts, j, |s|)
  {
    hide Clash, Flat, Cut, InSecret, Scrubbed, OccursAt;
    LineIsPieces(parts, secrets);
    if parts != [] {
      var p, rest, n := parts[0], parts[1..], |parts[0].text|;
      LineIsPieces(rest, secrets);
      PartIsPieces(p, secrets);
      var a, b := PartPieces(p, secrets), LinePieces(rest, secrets);
      FlatAppend(a, b);
      forall x ensures InSecret(a + b, x) <==> if x < n then InSecret(a, x) else InSecret(b, x - n) {
        InSecretAppend(a, b, x);
      }
      if p.scrubbed && 0 <= j && j + |s| <= n {
        assert Line(parts)[0..n] == p.text;
        PartOccurs(Line(parts), 0, n, s, j);
        assert Survives(a, s, j);
        ReadIffSurvives(a, s);
        ScrubHides(p.text, secrets);
      } else if WithinScrubbed(rest, j - n, |s|) {
        WithinLine(rest, j - n, |s|);
        assert Line(parts)[n..|Line(parts)|] == Line(rest);
        PartOccurs(Line(parts), n, |Line(parts)|, s, j - n);
        OccursWithin(Line(parts), s, j);
        UntouchedAfter(a + b, b, n, j, |s|);
        SurvivorStraddles(rest, secrets, s, j - n);
      }
    }
  }

  lemma {:induction false} WithinLine(parts: seq<Part>, j: int, n: nat)
    requires WithinScrubbed(parts, j, n)
    ensures 0 <= j
  {
    if !(parts[0].scrubbed && 0 <= j && j + n <= |parts[0].text|) {
      WithinLine(parts[1..], j - |parts[0].text|, n);
    }
  }

  /** If every secret of the line lies within one scrubbed part, none is left. */
  lemma NoneStraddles(parts: seq<Part>, secrets: seq<string>)
    requires Safe(secrets)
    requires forall s, j :: s in secrets && OccursAt(Line(parts), s, j) ==> WithinScrubbed(parts, j, |s|)
    ensures Clean(AfterPass(parts, secrets), secrets)
  {
    hide Clash, WithinScrubbed, InSecret, Flat, OccursAt, LinePieces;
    LineIsPieces(parts, secrets);
    forall s, j | s in secrets ensures !Survives(LinePieces(parts, secrets), s, j) {
      if Survives(LinePieces(parts, secrets), s, j) {
        SurvivorStraddles(parts, secrets, s, j);
      }
    }
    LineCleanIff(parts, secrets);
  }

  /** If no part holds a secret, the line is not changed: it shows exactly the secrets that
      putting the parts together makes. */
  lemma {:induction false} CleanPartsAreKept(parts: seq<Part>, secrets: seq<string>)
    requires forall i :: 0 <= i < |parts| ==> Clean(parts[i].text, secrets)
    ensures AfterPass(parts, secrets) == Line(parts)
  {
    hide Clean;
    if parts != [] {
      CleanIsKept(parts[0].text, secrets);
      CleanPartsAreKept(parts[1..], secrets);
    }
  }

  // ---- Scrubbing across a seam -----------------------------------------------------------------------

  /** No secret of the list crosses position `n`. */
  ghost predicate NoneCrosses(text: string, secrets: seq<string>, n: nat) {
    forall s, j :: s in secrets && OccursAt(text, s, j) ==> j + |s| <= n || n <= j
  }

  lemma PickSplits(text: string, secrets: seq<string>, s: string, i: nat)
    requires Safe(secrets) && FirstPick(text, secrets) == Some(Pick(s, i))
    ensures i + |s| <= |text|
    ensures Scrubbed(text, secrets) == Scrubbed(text[..i], secrets) + MARK + Scrubbed(text[i + |s|..], secrets)
  {
    hide Clash, Scrubbed, FirstPick;
    PickIsThere(text, secrets);
    var n := PickIndex(text, secrets);
    assert forall m :: 0 <= m < n ==> secrets[m] in secrets;
    ScrubSplits(text, secrets, n, i);
  }

  lemma CrossesIn(text: string, secrets: seq<string>, n: nat, lo: nat, hi: nat)
    requires NoneCrosses(text, secrets, n) && lo <= n <= hi <= |text|
    ensures NoneCrosses(text[lo..hi], secrets, n - lo)
  {
    forall s, j | s in secrets && OccursAt(text[lo..hi], s, j) ensures j + |s| <= n - lo || n - lo <= j {
      PartOccurs(text, lo, hi, s, j);
    }
  }

  /** Where no secret crosses a position, the two sides are scrubbed independently. */
  lemma {:induction false} ScrubSeam(a: string, b: string, secrets: seq<string>)
    requires Safe(secrets) && NoneCrosses(a + b, secrets, |a|)
    ensures Scrubbed(a + b, secrets) == Scrubbed(a, secrets) + Scrubbed(b, secrets)
    decreases |a| + |b|
  {
    hide Clash, Scrubbed, FirstPick, NoneCrosses;
    var text, n := a + b, |a|;
    assert text[0..n] == a && text[n..|text|] == b;
    match FirstPick(text, secrets)
    case None =>
      NoPick(text, secrets);
      CleanIsKept(text, secrets);
      CleanSides(a, b, secrets);
      CleanIsKept(a, secrets);
      CleanIsKept(b, secrets);
    case Some(Pick(s, i)) =>
      PickIsThere(text, secrets);
      PickSplits(text, secrets, s, i);
      PickBeside(text, secrets, n, s, i);
      var k := i + |s|;
      if k <= n {
        PickInPart(text, secrets, 0, n, s, i);
        PickSplits(a, secrets, s, i);
        CrossesIn(text, secrets, n, k, |text|);
        assert text[k..|text|] == a[k..] + b && text[k..] == a[k..] + b && text[..i] == a[..i];
        ScrubSeam(a[k..], b, secrets);
      } else {
        PickInPart(text, secrets, n, |text|, s, i);
        PickSplits(b, secrets, s, i - n);
        CrossesIn(text, secrets, n, 0, i);
        assert text[0..i] == a + b[..i - n] && text[..i] == a + b[..i - n] && text[k..] == b[k - n..];
        ScrubSeam(a, b[..i - n], secrets);
      }
  }

  lemma PickBeside(text: string, secrets: seq<string>, n: nat, s: string, i: nat)
    requires NoneCrosses(text, secrets, n) && s in secrets && OccursAt(text, s, i)
    ensures i + |s| <= n || n <= i
  {
  }

  lemma CleanSides(a: string, b: string, secrets: seq<string>)
    requires Clean(a + b, secrets)
    ensures Clean(a, secrets) && Clean(b, secrets)
  {
    hide Occurs;
    forall s | s in secrets ensures !Occurs(a, s) && !Occurs(b, s) {
      NotInParts(a + b, s, |a|, |a|);
      assert (a + b)[..|a|] == a && (a + b)[|a|..] == b;
    }
  }
}
