/** What a scrub masks and what it keeps, position by position, for any list in any
    order: which lists leave nothing of any secret in any text. */
module RedactorCut {
  import opened Text
  import opened Redactor
  import opened RedactorPieces

  datatype Pick = Pick(s: string, at: nat)

  /** The first replacement of a scrub: the first secret of the list that occurs, at its
      first position. */
  function FirstPick(text: string, secrets: seq<string>): (r: Option<Pick>)
    ensures r.Some? ==> r.value.s in secrets && r.value.s != "" && OccursAt(text, r.value.s, r.value.at)
    ensures r.None? ==> forall s :: s in secrets && s != "" ==> !Occurs(text, s)
  {
    if secrets == [] then None
    else if secrets[0] != "" && FindFirst(text, secrets[0]).Some? then
      Some(Pick(secrets[0], FindFirst(text, secrets[0]).value))
    else FirstPick(text, secrets[1..])
  }

  /** The text cut along the replacements: around the first one, then on either side. */
  function Cut(text: string, secrets: seq<string>): seq<Piece>
    decreases |text|
  {
    match FirstPick(text, secrets)
    case None => [Plain(text)]
    case Some(Pick(s, i)) => Cut(text[..i], secrets) + [Secret(s)] + Cut(text[i + |s|..], secrets)
  }

  // ---- The scrub follows the cut ------------------------------------------------------------

  /** Around a marker the two sides are replaced independently. */
  lemma {:induction false} ReplaceAroundMark(a: string, b: string, s: string)
    requires s != "" && !Clash(s)
    ensures Replace(a + MARK + b, s) == Replace(a, s) + MARK + Replace(b, s)
    decreases |a|
  {
    hide Clash, Replace;
    var whole := a + MARK + b;
    match FindFirst(a, s)
    case None =>
      FindsIff(a, s);
      ReplaceNone(a, s);
      assert whole == (a + MARK) + b;
      forall j | 0 <= j < |a + MARK| ensures !OccursAt((a + MARK) + b, s, j) {
        if OccursAt(whole, s, j) {
          NotAcrossMark(a, b, s, j);
        }
      }
      ReplaceSkips(a + MARK, b, s);
    case Some(i) =>
      assert whole[..|a|] == a;
      InPrefix(whole, |a|, s, i);
      forall j | 0 <= j < i ensures !OccursAt(whole, s, j) {
        if OccursAt(whole, s, j) {
          NotAcrossMark(a, b, s, j);
        }
      }
      FirstIs(whole, s, i);
      ReplaceAt(whole, s, i);
      ReplaceAt(a, s, i);
      assert whole[i + |s|..] == a[i + |s|..] + MARK + b;
      ReplaceAroundMark(a[i + |s|..], b, s);
      Regroup(whole[..i] + MARK, Replace(a[i + |s|..], s), MARK, Replace(b, s));
      assert whole[..i] == a[..i];
  }

  lemma {:induction false} ScrubAroundMark(a: string, b: string, secrets: seq<string>)
    requires Safe(secrets)
    ensures Scrubbed(a + MARK + b, secrets) == Scrubbed(a, secrets) + MARK + Scrubbed(b, secrets)
    decreases |secrets|
  {
    hide Clash, Replace;
    if secrets != [] {
      var s := secrets[0];
      assert s in secrets;
      ReplaceAroundMark(a, b, s);
      FirstScrub(a + MARK + b, secrets);
      FirstScrub(a, secrets);
      FirstScrub(b, secrets);
      ScrubAroundMark(Replace(a, s), Replace(b, s), secrets[1..]);
    }
  }

  lemma NotInParts(text: string, s: string, i: nat, k: nat)
    requires i <= k <= |text| && !Occurs(text, s)
    ensures !Occurs(text[..i], s) && !Occurs(text[k..], s)
  {
    forall j ensures !OccursAt(text[..i], s, j) && !OccursAt(text[k..], s, j) {
      if OccursAt(text[..i], s, j) {
        InPrefix(text, i, s, j);
      }
      if OccursAt(text[k..], s, j) {
        InSuffix(text, k, s, j);
      }
    }
  }

  lemma SkipAbsent(text: string, secrets: seq<string>)
    requires secrets != [] && secrets[0] != "" && !Occurs(text, secrets[0])
    ensures Scrubbed(text, secrets) == Scrubbed(text, secrets[1..])
  {
    FindsIff(text, secrets[0]);
  }

  lemma BeforeFirst(text: string, s: string, i: nat)
    requires FindFirst(text, s) == Some(i)
    ensures !Occurs(text[..i], s) || s == ""
  {
    forall j ensures s != "" ==> !OccursAt(text[..i], s, j) {
      if OccursAt(text[..i], s, j) {
        InPrefix(text, i, s, j);
      }
    }
  }

  /** The scrub of a text whose first replacement is known: what is on either side is
      scrubbed by itself. */
  lemma {:induction false} ScrubSplits(text: string, secrets: seq<string>, n: nat, i: nat)
    requires n < |secrets| && "" !in secrets && Safe(secrets[n + 1..])
    requires forall m :: 0 <= m < n ==> !Occurs(text, secrets[m])
    requires FindFirst(text, secrets[n]) == Some(i)
    ensures Scrubbed(text, secrets)
         == Scrubbed(text[..i], secrets) + MARK + Scrubbed(text[i + |secrets[n]|..], secrets)
    decreases n
  {
    hide Clash, Replace, Scrubbed, Occurs;
    var s, rest := secrets[0], secrets[1..];
    assert s in secrets;
    var a, b := text[..i], text[i + |secrets[n]|..];
    if n == 0 {
      BeforeFirst(text, s, i);
      SkipAbsent(a, secrets);
      ReplaceAt(text, s, i);
      FirstScrub(text, secrets);
      FirstScrub(b, secrets);
      ScrubAroundMark(a, Replace(b, s), rest);
    } else {
      NotInParts(text, s, i, i + |secrets[n]|);
      SkipAbsent(text, secrets);
      SkipAbsent(a, secrets);
      SkipAbsent(b, secrets);
      assert rest[n - 1 + 1..] == secrets[n + 1..];
      assert rest[n - 1] == secrets[n];
      ScrubSplits(text, rest, n - 1, i);
    }
  }

  lemma {:induction false} PickIndex(text: string, secrets: seq<string>) returns (n: nat)
    requires FirstPick(text, secrets).Some?
    ensures n < |secrets| && FirstPick(text, secrets).value.s == secrets[n]
    ensures secrets[n] != "" && FindFirst(text, secrets[n]) == Some(FirstPick(text, secrets).value.at)
    ensures forall m :: 0 <= m < n ==> secrets[m] == "" || !Occurs(text, secrets[m])
  {
    hide Occurs;
    FindsIff(text, secrets[0]);
    if secrets[0] != "" && FindFirst(text, secrets[0]).Some? {
      n := 0;
    } else {
      var k := PickIndex(text, secrets[1..]);
      n := k + 1;
      forall m | 0 <= m < n ensures secrets[m] == "" || !Occurs(text, secrets[m]) {
        if m > 0 {
          assert secrets[m] == secrets[1..][m - 1];
        }
      }
    }
  }

  lemma PickIs(text: string, secrets: seq<string>, n: nat, i: nat)
    requires n < |secrets| && secrets[n] != "" && FindFirst(text, secrets[n]) == Some(i)
    requires forall m :: 0 <= m < n ==> secrets[m] == "" || !Occurs(text, secrets[m])
    ensures FirstPick(text, secrets) == Some(Pick(secrets[n], i))
  {
    hide Occurs;
    FindsIff(text, secrets[0]);
    if n > 0 {
      PickIs(text, secrets[1..], n - 1, i);
    }
  }

  lemma CutNone(text: string, secrets: seq<string>)
    requires FirstPick(text, secrets).None?
    ensures Cut(text, secrets) == [Plain(text)]
  {
  }

  lemma CutSome(text: string, secrets: seq<string>, s: string, i: nat)
    requires FirstPick(text, secrets) == Some(Pick(s, i))
    ensures Cut(text, secrets) == Cut(text[..i], secrets) + [Secret(s)] + Cut(text[i + |s|..], secrets)
  {
  }

  lemma FlatOne(p: Piece)
    ensures Flat([p]) == PieceText(p)
  {
    assert PieceText(p) + "" == PieceText(p);
  }

  lemma FlatThree(a: seq<Piece>, p: Piece, b: seq<Piece>)
    ensures Flat(a + [p] + b) == Flat(a) + PieceText(p) + Flat(b)
  {
    FlatAppend(a + [p], b);
    FlatAppend(a, [p]);
    FlatOne(p);
  }

  lemma MaskedThree(a: seq<Piece>, s: string, b: seq<Piece>)
    ensures Masked(a + [Secret(s)] + b) == Masked(a) + [Marked] + Masked(b)
  {
    MaskedAll(a);
    MaskedAll(b);
    MaskedAll(a + [Secret(s)] + b);
  }

  /** The pieces are the text, cut at secrets. */
  lemma {:induction false} CutIsText(text: string, secrets: seq<string>)
    ensures Flat(Cut(text, secrets)) == text && SecretsFrom(Cut(text, secrets), secrets)
    ensures Tight(Cut(text, secrets))
    decreases |text|
  {
    hide Cut, FirstPick, Flat;
    match FirstPick(text, secrets)
    case None =>
      CutNone(text, secrets);
      FlatOne(Plain(text));
    case Some(Pick(s, i)) =>
      PickIsThere(text, secrets);
      CutSome(text, secrets, s, i);
      CutIsText(text[..i], secrets);
      CutIsText(text[i + |s|..], secrets);
      FlatThree(Cut(text[..i], secrets), Secret(s), Cut(text[i + |s|..], secrets));
      assert text == text[..i] + text[i..i + |s|] + text[i + |s|..];
  }

  /** No markers, and no empty secrets. */
  predicate Tight(ps: seq<Piece>) {
    Marked !in ps && Secret("") !in ps
  }

  lemma PickIsThere(text: string, secrets: seq<string>)
    ensures FirstPick(text, secrets).Some? ==>
      && FirstPick(text, secrets).value.s in secrets && FirstPick(text, secrets).value.s != ""
      && OccursAt(text, FirstPick(text, secrets).value.s, FirstPick(text, secrets).value.at)
  {
  }

  /** The scrub is the text with the secret pieces of its cut masked. */
  lemma {:induction false} ScrubCut(text: string, secrets: seq<string>)
    requires Safe(secrets)
    ensures Scrubbed(text, secrets) == Flat(Masked(Cut(text, secrets)))
    decreases |text|
  {
    hide Clash, Cut, Flat, Masked, Scrubbed, FirstPick, Occurs;
    match FirstPick(text, secrets)
    case None =>
      NoPick(text, secrets);
      CutNone(text, secrets);
      CleanIsKept(text, secrets);
      FlatOne(Plain(text));
      MaskedAll([Plain(text)]);
      assert Masked([Plain(text)]) == [Plain(text)];
    case Some(Pick(s, i)) =>
      PickIsThere(text, secrets);
      var n := PickIndex(text, secrets);
      assert forall m :: 0 <= m < n ==> secrets[m] in secrets;
      ScrubSplits(text, secrets, n, i);
      var a, b := text[..i], text[i + |s|..];
      ScrubCut(a, secrets);
      ScrubCut(b, secrets);
      CutSome(text, secrets, s, i);
      MaskedThree(Cut(a, secrets), s, Cut(b, secrets));
      FlatThree(Masked(Cut(a, secrets)), Marked, Masked(Cut(b, secrets)));
  }

  lemma NoPick(text: string, secrets: seq<string>)
    requires FirstPick(text, secrets).None? && "" !in secrets
    ensures Clean(text, secrets)
  {
  }

  // ---- Positions --------------------------------------------------------------------------------

  /** The position belongs to some occurrence of a secret. */
  ghost predicate Covered(text: string, secrets: seq<string>, x: int) {
    exists s, i :: s in secrets && OccursAt(text, s, i) && i <= x < i + |s|
  }

  /** The position lies in a secret piece. */
  predicate InSecret(ps: seq<Piece>, x: int) {
    ps != [] &&
      if x < |PieceText(ps[0])| then 0 <= x && ps[0].Secret? else InSecret(ps[1..], x - |PieceText(ps[0])|)
  }

  /** The scrub keeps no character of any occurrence of a secret. */
  ghost predicate LeavesNothing(text: string, secrets: seq<string>) {
    forall x :: Covered(text, secrets, x) ==> InSecret(Cut(text, secrets), x)
  }

  ghost predicate MasksAll(secrets: seq<string>) {
    forall text :: LeavesNothing(text, secrets)
  }

  lemma {:induction false} InSecretAppend(a: seq<Piece>, b: seq<Piece>, x: int)
    ensures InSecret(a + b, x) <==> if x < |Flat(a)| then InSecret(a, x) else InSecret(b, x - |Flat(a)|)
    decreases |a|
  {
    hide PieceText;
    if a == [] {
      assert a + b == b;
      if x < 0 {
        NotBeforeStart(b, x);
      }
    } else {
      InSecretAppend(a[1..], b, x - |PieceText(a[0])|);
      assert (a + b)[1..] == a[1..] + b;
      assert Flat(a) == PieceText(a[0]) + Flat(a[1..]);
      if x < |PieceText(a[0])| {
      } else {
        assert (a + b)[0] == a[0];
      }
    }
  }

  lemma {:induction false} NotBeforeStart(ps: seq<Piece>, x: int)
    requires x < 0
    ensures !InSecret(ps, x)
  {
  }

  /** Masked is the first replacement, and what is masked on either side of it. */
  lemma InSecretCut(text: string, secrets: seq<string>, s: string, i: nat, x: int)
    requires FirstPick(text, secrets) == Some(Pick(s, i))
    ensures i + |s| <= |text|
    ensures InSecret(Cut(text, secrets), x) <==>
      if x < i then InSecret(Cut(text[..i], secrets), x)
      else x < i + |s| || InSecret(Cut(text[i + |s|..], secrets), x - i - |s|)
  {
    hide Cut, FirstPick, Flat, InSecret;
    PickIsThere(text, secrets);
    CutSome(text, secrets, s, i);
    var a, b := Cut(text[..i], secrets), Cut(text[i + |s|..], secrets);
    CutIsText(text[..i], secrets);
    InSecretAppend(a + [Secret(s)], b, x);
    InSecretAppend(a, [Secret(s)], x);
    FlatAppend(a, [Secret(s)]);
    FlatOne(Secret(s));
    InOne(s, x - i);
  }

  lemma InOne(s: string, x: int)
    ensures InSecret([Secret(s)], x) <==> 0 <= x < |s|
  {
  }

  /** Only positions of secrets are masked. */
  lemma {:induction false} MaskedIsCovered(text: string, secrets: seq<string>, x: int)
    requires InSecret(Cut(text, secrets), x)
    ensures Covered(text, secrets, x)
    decreases |text|
  {
    hide Cut, FirstPick, InSecret;
    match FirstPick(text, secrets)
    case None =>
      CutNone(text, secrets);
      InPlain(text, x);
    case Some(Pick(s, i)) =>
      PickIsThere(text, secrets);
      InSecretCut(text, secrets, s, i, x);
      if x < i {
        MaskedIsCovered(text[..i], secrets, x);
        assert text[0..i] == text[..i];
        CoveredInPart(text, secrets, 0, i, x);
      } else if x >= i + |s| {
        MaskedIsCovered(text[i + |s|..], secrets, x - i - |s|);
        assert text[i + |s|..|text|] == text[i + |s|..];
        CoveredInPart(text, secrets, i + |s|, |text|, x);
      }
  }

  lemma InPlain(text: string, x: int)
    ensures !InSecret([Plain(text)], x)
  {
  }

  lemma CoveredInPart(text: string, secrets: seq<string>, lo: nat, hi: nat, x: int)
    requires lo <= hi <= |text| && Covered(text[lo..hi], secrets, x - lo)
    ensures Covered(text, secrets, x)
  {
    hide OccursAt;
    var s, i :| s in secrets && OccursAt(text[lo..hi], s, i) && i <= x - lo < i + |s|;
    PartOccurs(text, lo, hi, s, i);
  }

  lemma PartOccurs(text: string, lo: nat, hi: nat, s: string, i: int)
    requires lo <= hi <= |text|
    ensures OccursAt(text[lo..hi], s, i) <==> 0 <= i && i + |s| <= hi - lo && OccursAt(text, s, lo + i)
  {
    if 0 <= i && i + |s| <= hi - lo {
      SliceOfSlice(text, lo, hi, i, i + |s|);
      assert text[lo..hi][i..i + |s|] == text[lo + i..lo + i + |s|];
    }
  }

  lemma SliceOfSlice(text: string, lo: nat, hi: nat, i: nat, k: nat)
    requires lo <= hi <= |text| && i <= k <= hi - lo
    ensures text[lo..hi][i..k] == text[lo + i..lo + k]
  {
    var a, b := text[lo..hi][i..k], text[lo + i..lo + k];
    forall m | 0 <= m < |a| ensures a[m] == b[m] {
      assert a[m] == text[lo..hi][i + m] == text[lo + (i + m)];
    }
  }

  // ---- Which lists mask all -----------------------------------------------------------------------

  /** The text is made of two occurrences that meet. */
  ghost predicate Meeting(h: string, p: string, i: nat, q: string, j: nat) {
    && OccursAt(h, p, i) && OccursAt(h, q, j) && i < j + |q| && j < i + |p|
    && (i == 0 || j == 0) && (i + |p| == |h| || j + |q| == |h|)
  }

  /** Every position belongs to a secret. */
  ghost predicate AllCovered(text: string, secrets: seq<string>) {
    forall x :: 0 <= x < |text| ==> Covered(text, secrets, x)
  }

  /** Wherever two secrets of the list meet, and one of them is the first to be replaced,
      what remains of the other consists of secrets itself. */
  ghost predicate RestsAreSecrets(secrets: seq<string>) {
    forall h, p, i: nat, q, j: nat {:trigger Meeting(h, p, i, q, j)} ::
      p in secrets && q in secrets && Meeting(h, p, i, q, j) && FirstPick(h, secrets) == Some(Pick(p, i)) ==>
        AllCovered(h[..i], secrets) && AllCovered(h[i + |p|..], secrets)
  }

  /** A part that holds the first replacement has the same one. */
  lemma PickInPart(text: string, secrets: seq<string>, lo: nat, hi: nat, s: string, i: nat)
    requires FirstPick(text, secrets) == Some(Pick(s, i)) && lo <= i && i + |s| <= hi <= |text|
    ensures FirstPick(text[lo..hi], secrets) == Some(Pick(s, i - lo))
  {
    hide OccursAt, FirstPick;
    var n := PickIndex(text, secrets);
    var part := text[lo..hi];
    PickIsThere(text, secrets);
    PartOccurs(text, lo, hi, s, i - lo);
    forall k | 0 <= k < i - lo ensures !OccursAt(part, s, k) {
      PartOccurs(text, lo, hi, s, k);
    }
    FirstIs(part, s, i - lo);
    forall m | 0 <= m < n ensures secrets[m] == "" || !Occurs(part, secrets[m]) {
      forall k ensures secrets[m] == "" || !OccursAt(part, secrets[m], k) {
        PartOccurs(text, lo, hi, secrets[m], k);
      }
    }
    PickIs(part, secrets, n, i - lo);
  }

  /** A position of a secret that meets the first replacement belongs to a secret beside
      it, too. */
  lemma CoveredBeside(text: string, secrets: seq<string>, p: string, i: nat, x: int)
    requires RestsAreSecrets(secrets) && FirstPick(text, secrets) == Some(Pick(p, i)) && Covered(text, secrets, x)
    ensures i + |p| <= |text|
    ensures x < i ==> Covered(text[..i], secrets, x)
    ensures x >= i + |p| ==> Covered(text[i + |p|..], secrets, x - i - |p|)
  {
    hide FirstPick, OccursAt, RestsAreSecrets;
    PickIsThere(text, secrets);
    var q, j :| q in secrets && OccursAt(text, q, j) && j <= x < j + |q|;
    OccursWithin(text, q, j);
    OccursWithin(text, p, i);
    AtNatural(text, q, j);
    if j + |q| <= i {
      PartOccurs(text, 0, i, q, j);
      assert text[0..i] == text[..i];
    } else if i + |p| <= j {
      PartOccurs(text, i + |p|, |text|, q, j - i - |p|);
      assert text[i + |p|..|text|] == text[i + |p|..];
    } else if x < i || x >= i + |p| {
      MeetingRests(text, secrets, p, i, q, j);
      if x < i {
        CoveredInPart(text[..i], secrets, j, i, x) by {
          assert text[..i][j..i] == text[j..i];
        }
      } else {
        var k := i + |p|;
        assert text[k..][0..j + |q| - k] == text[k..j + |q|];
        CoveredInPart(text[k..], secrets, 0, j + |q| - k, x - k);
      }
    }
  }

  lemma AtNatural(text: string, q: string, j: int)
    requires OccursAt(text, q, j)
    ensures 0 <= j
  {
  }

  lemma MeetingRests(text: string, secrets: seq<string>, p: string, i: nat, q: string, j: nat)
    requires RestsAreSecrets(secrets) && FirstPick(text, secrets) == Some(Pick(p, i))
    requires q in secrets && OccursAt(text, q, j) && i < j + |q| && j < i + |p|
    ensures i + |p| <= |text| && j + |q| <= |text|
    ensures j < i ==> AllCovered(text[j..i], secrets)
    ensures i + |p| < j + |q| ==> AllCovered(text[i + |p|..j + |q|], secrets)
  {
    hide FirstPick, OccursAt, AllCovered;
    PickIsThere(text, secrets);
    OccursWithin(text, q, j);
    OccursWithin(text, p, i);
    var lo, hi := if i < j then i else j, if i + |p| > j + |q| then i + |p| else j + |q|;
    var h := text[lo..hi];
    PartOccurs(text, lo, hi, p, i - lo);
    PartOccurs(text, lo, hi, q, j - lo);
    PickInPart(text, secrets, lo, hi, p, i);
    assert Meeting(h, p, i - lo, q, j - lo);
    assert h[..i - lo] == text[lo..i] && h[i - lo + |p|..] == text[i + |p|..hi];
  }

  lemma {:induction false} RestsMaskText(text: string, secrets: seq<string>, x: int)
    requires RestsAreSecrets(secrets) && Covered(text, secrets, x)
    ensures InSecret(Cut(text, secrets), x)
    decreases |text|
  {
    hide FirstPick, RestsAreSecrets, Cut, InSecret, Covered;
    match FirstPick(text, secrets)
    case None =>
      NothingCovered(text, secrets, x);
    case Some(Pick(p, i)) =>
      PickIsThere(text, secrets);
      CoveredBeside(text, secrets, p, i, x);
      InSecretCut(text, secrets, p, i, x);
      if x < i {
        RestsMaskText(text[..i], secrets, x);
      } else if x >= i + |p| {
        RestsMaskText(text[i + |p|..], secrets, x - i - |p|);
      }
  }

  lemma NothingCovered(text: string, secrets: seq<string>, x: int)
    requires FirstPick(text, secrets).None?
    ensures !Covered(text, secrets, x)
  {
    hide FirstPick;
    if Covered(text, secrets, x) {
      var s, i :| s in secrets && OccursAt(text, s, i) && i <= x < i + |s|;
      NoneOccurs(text, secrets, s, i);
    }
  }

  lemma NoneOccurs(text: string, secrets: seq<string>, s: string, i: int)
    requires FirstPick(text, secrets).None? && s in secrets && s != ""
    ensures !OccursAt(text, s, i)
  {
  }

  /** In no text anything of any secret is left if and only if, wherever two secrets meet
      and one is replaced first, the rest of the other consists of secrets. That looks at
      finitely many short texts, each made of two secrets. */
  lemma MasksAllIff(secrets: seq<string>)
    ensures MasksAll(secrets) <==> RestsAreSecrets(secrets)
  {
    hide LeavesNothing, RestsAreSecrets;
    if RestsAreSecrets(secrets) {
      forall text ensures LeavesNothing(text, secrets) {
        RestsLeaveNothing(text, secrets);
      }
    } else {
      NeedsRests(secrets);
    }
  }

  lemma RestsLeaveNothing(text: string, secrets: seq<string>)
    requires RestsAreSecrets(secrets)
    ensures LeavesNothing(text, secrets)
  {
    hide RestsAreSecrets, InSecret, Cut, Covered;
    forall x | Covered(text, secrets, x) ensures InSecret(Cut(text, secrets), x) {
      RestsMaskText(text, secrets, x);
    }
  }

  lemma NeedsRests(secrets: seq<string>)
    requires !RestsAreSecrets(secrets)
    ensures !MasksAll(secrets)
  {
    hide FirstPick, AllCovered, LeavesNothing;
    var h, p, i: nat, q, j: nat :| p in secrets && q in secrets && Meeting(h, p, i, q, j)
      && FirstPick(h, secrets) == Some(Pick(p, i))
      && !(AllCovered(h[..i], secrets) && AllCovered(h[i + |p|..], secrets));
    if LeavesNothing(h, secrets) {
      RestsOfPick(h, secrets, p, i, q, j);
    }
  }

  lemma MeetingBounds(h: string, p: string, i: nat, q: string, j: nat)
    requires Meeting(h, p, i, q, j)
    ensures i + |p| <= |h| && j + |q| <= |h|
  {
  }

  /** A text made of the first replacement and a secret that meets it. */
  lemma RestsOfPick(h: string, secrets: seq<string>, p: string, i: nat, q: string, j: nat)
    requires p in secrets && q in secrets && FirstPick(h, secrets) == Some(Pick(p, i)) && Meeting(h, p, i, q, j)
    ensures i + |p| <= |h|
    ensures LeavesNothing(h, secrets) <==>
      && LeavesNothing(h[..i], secrets) && AllCovered(h[..i], secrets)
      && LeavesNothing(h[i + |p|..], secrets) && AllCovered(h[i + |p|..], secrets)
  {
    hide FirstPick, Cut, InSecret, OccursAt, Covered;
    MeetingBounds(h, p, i, q, j);
    var a, b, k := h[..i], h[i + |p|..], i + |p|;
    forall x | 0 <= x < |h| ensures Covered(h, secrets, x) {
      CoveredByEither(h, secrets, p, i, q, j, x);
    }
    forall x ensures Covered(h, secrets, x) ==> 0 <= x < |h| {
      CoveredWithin(h, secrets, x);
    }
    forall x ensures Covered(a, secrets, x) ==> 0 <= x < |a| {
      CoveredWithin(a, secrets, x);
    }
    forall x ensures Covered(b, secrets, x) ==> 0 <= x < |b| {
      CoveredWithin(b, secrets, x);
    }
    if LeavesNothing(h, secrets) {
      forall x | 0 <= x < |a| ensures Covered(a, secrets, x) && InSecret(Cut(a, secrets), x) {
        InSecretCut(h, secrets, p, i, x);
        MaskedIsCovered(a, secrets, x);
      }
      forall x | 0 <= x < |b| ensures Covered(b, secrets, x) && InSecret(Cut(b, secrets), x) {
        InSecretCut(h, secrets, p, i, k + x);
        MaskedIsCovered(b, secrets, x);
      }
    }
    forall x | 0 <= x < |h|
      ensures InSecret(Cut(h, secrets), x) <==>
        if x < i then InSecret(Cut(a, secrets), x) else x < k || InSecret(Cut(b, secrets), x - k)
    {
      InSecretCut(h, secrets, p, i, x);
    }
  }

  lemma CoveredByEither(h: string, secrets: seq<string>, p: string, i: nat, q: string, j: nat, x: nat)
    requires p in secrets && q in secrets && Meeting(h, p, i, q, j) && x < |h|
    ensures Covered(h, secrets, x)
  {
  }

  lemma CoveredWithin(text: string, secrets: seq<string>, x: int)
    ensures Covered(text, secrets, x) ==> 0 <= x < |text|
  {
  }

  // ---- Overlaps and nesting --------------------------------------------------------------------------

  lemma MeetingKinds(h: string, p: string, i: nat, q: string, j: nat)
    requires Meeting(h, p, i, q, j)
    ensures Overlap(p, q) || Overlap(q, p) || (h == p && i == 0) || (h == q && j == 0)
  {
    hide Overlap;
    if i < j && i + |p| < j + |q| {
      CrossingOverlaps(h, p, q, i, j);
    } else if j < i && j + |q| < i + |p| {
      CrossingOverlaps(h, q, p, j, i);
    } else if i <= j && j + |q| <= i + |p| {
      assert h[0..|h|] == h;
    } else {
      assert h[0..|h|] == h;
    }
  }

  lemma PickIsLongest(h: string, secrets: seq<string>, p: string, i: nat, q: string)
    requires LongestFirst(secrets) && FirstPick(h, secrets) == Some(Pick(p, i))
    requires q in secrets && q != "" && Occurs(h, q)
    ensures |q| <= |p|
  {
    hide FirstPick, Occurs;
    var n := PickIndex(h, secrets);
    var m :| 0 <= m < |secrets| && secrets[m] == q;
  }

  /** With the longest first, a list in which no proper end of a secret is a proper
      beginning of one leaves nothing of any secret in any text. */
  lemma NoneOverlapMasksAll(secrets: seq<string>)
    requires LongestFirst(secrets) && NoneOverlap(secrets) && "" !in secrets
    ensures MasksAll(secrets)
  {
    hide FirstPick, LongestFirst, Overlap, MasksAll;
    forall h, p, i: nat, q, j: nat | p in secrets && q in secrets && Meeting(h, p, i, q, j)
      && FirstPick(h, secrets) == Some(Pick(p, i))
      ensures h[..i] == "" && h[i + |p|..] == ""
    {
      MeetingKinds(h, p, i, q, j);
      if h == q {
        PickIsLongest(h, secrets, p, i, q);
      }
    }
    MasksAllIff(secrets);
  }

  /** No secret occurs within another one. */
  ghost predicate NoneNested(secrets: seq<string>) {
    "" !in secrets && forall p, q :: p in secrets && q in secrets && Occurs(q, p) ==> p == q
  }

  /** Two secrets of such a list at the same start, or with the same end, are one. */
  lemma SameEdge(h: string, secrets: seq<string>, p: string, i: int, q: string, j: int)
    requires NoneNested(secrets) && p in secrets && q in secrets && OccursAt(h, p, i) && OccursAt(h, q, j)
    requires i == j || i + |p| == j + |q|
    ensures p == q
  {
    if |p| <= |q| {
      assert h[j..j + |q|] == q;
      PartOccurs(h, j, j + |q|, p, i - j);
    } else {
      assert h[i..i + |p|] == p;
      PartOccurs(h, i, i + |p|, q, j - i);
    }
  }

  /** Where two of them cross, the first and the last position are not both masked. */
  lemma CrossingLeaves(h: string, secrets: seq<string>, p: string, q: string, j: nat)
    requires NoneNested(secrets) && p in secrets && q in secrets
    requires OccursAt(h, p, 0) && OccursAt(h, q, j) && 0 < j < |p| < j + |q| == |h|
    ensures !LeavesNothing(h, secrets)
  {
    hide FirstPick, Cut, InSecret, NoneNested, OccursAt;
    assert Covered(h, secrets, 0) && Covered(h, secrets, |h| - 1);
    if LeavesNothing(h, secrets) {
      match FirstPick(h, secrets)
      case None =>
        NothingCovered(h, secrets, 0);
      case Some(Pick(e, i)) =>
        PickIsThere(h, secrets);
        InSecretCut(h, secrets, e, i, 0);
        InSecretCut(h, secrets, e, i, |h| - 1);
        if i == 0 {
          SameEdge(h, secrets, e, 0, p, 0);
          var k := |e|;
          MaskedIsCovered(h[k..], secrets, |h| - 1 - k);
          var r, m :| r in secrets && OccursAt(h[k..], r, m) && m <= |h| - 1 - k < m + |r|;
          EndsAt(h, k, r, m);
          SameEdge(h, secrets, r, k + m, q, j);
        } else {
          MaskedIsCovered(h[..i], secrets, 0);
          var r, m :| r in secrets && OccursAt(h[..i], r, m) && m <= 0 < m + |r|;
          StartsAt(h, i, r, m);
          SameEdge(h, secrets, r, 0, p, 0);
          SameEnd(h, secrets, e, i, q, j);
        }
    }
  }

  lemma EndsAt(h: string, k: nat, r: string, m: int)
    requires k <= |h| && OccursAt(h[k..], r, m) && m <= |h| - 1 - k < m + |r|
    ensures 0 <= m && OccursAt(h, r, k + m) && k + m + |r| == |h|
  {
    InSuffix(h, k, r, m);
  }

  lemma StartsAt(h: string, i: nat, r: string, m: int)
    requires i <= |h| && OccursAt(h[..i], r, m) && m <= 0 < m + |r|
    ensures m == 0 && OccursAt(h, r, 0) && |r| <= i
  {
    InPrefix(h, i, r, m);
  }

  /** A secret that starts no earlier than one that reaches the end is that one. */
  lemma SameEnd(h: string, secrets: seq<string>, e: string, i: nat, q: string, j: nat)
    requires NoneNested(secrets) && e in secrets && q in secrets && j <= i
    requires OccursAt(h, e, i) && OccursAt(h, q, j) && j + |q| == |h|
    ensures i == j && e == q
  {
    assert h[j..j + |q|] == q;
    PartOccurs(h, j, j + |q|, e, i - j);
  }

  /** If no secret occurs within another one, then in whatever order: nothing of any is
      left in any text if and only if no proper end of one is a proper beginning of one. */
  lemma MasksAllIffNoneOverlap(secrets: seq<string>)
    requires NoneNested(secrets)
    ensures MasksAll(secrets) <==> NoneOverlap(secrets)
  {
    hide FirstPick, Overlap, LeavesNothing, OccursAt;
    if NoneOverlap(secrets) {
      forall h, p, i: nat, q, j: nat | p in secrets && q in secrets && Meeting(h, p, i, q, j)
        && FirstPick(h, secrets) == Some(Pick(p, i))
        ensures i == 0 && |p| == |h|
      {
        MeetingKinds(h, p, i, q, j);
        MeetingBounds(h, p, i, q, j);
        assert h == q ==> Occurs(q, p);
      }
      MasksAllIff(secrets);
    } else {
      var p, q :| p in secrets && q in secrets && Overlap(p, q);
      var k := OverlapAt(p, q);
      OverlapCrosses(p, q, k);
      CrossingLeaves(p + q[k..], secrets, p, q, |p| - k);
    }
  }

  // ---- Texts in which the secrets do not cross ------------------------------------------------------

  lemma ApartInPart(text: string, secrets: seq<string>, lo: nat, hi: nat)
    requires DisjointOrNested(text, secrets) && lo <= hi <= |text|
    ensures DisjointOrNested(text[lo..hi], secrets)
  {
    forall p, q, i, j | p in secrets && q in secrets && OccursAt(text[lo..hi], p, i) && OccursAt(text[lo..hi], q, j)
      ensures Apart(i, p, j, q)
    {
      PartOccurs(text, lo, hi, p, i);
      PartOccurs(text, lo, hi, q, j);
      assert Apart(lo + i, p, lo + j, q);
    }
  }

  lemma InsideThree(a: seq<Piece>, e: string, b: seq<Piece>, p: string, j: int)
    ensures Inside(a + [Secret(e)] + b, p, j) <==>
      || Inside(a, p, j) || (|Flat(a)| <= j && j + |p| <= |Flat(a)| + |e|)
      || Inside(b, p, j - |Flat(a)| - |e|)
  {
    hide Flat;
    FlatAppend(a, [Secret(e)]);
    FlatOne(Secret(e));
    InsideAppend(a + [Secret(e)], b, p, j);
    InsideAppend(a, [Secret(e)], p, j);
  }

  /** Each occurrence lies within one piece of the cut. */
  lemma {:induction false} CutHolds(text: string, secrets: seq<string>, p: string, j: int)
    requires LongestFirst(secrets) && DisjointOrNested(text, secrets)
    requires p in secrets && p != "" && OccursAt(text, p, j)
    ensures Inside(Cut(text, secrets), p, j)
    decreases |text|
  {
    hide Cut, FirstPick, Flat, Inside, LongestFirst, DisjointOrNested, OccursAt;
    match FirstPick(text, secrets)
    case None =>
      NoneOccurs(text, secrets, p, j);
    case Some(Pick(e, i)) =>
      PickIsThere(text, secrets);
      OccursWithin(text, e, i);
      OccursWithin(text, p, j);
      AtNatural(text, p, j);
      assert Occurs(text, p);
      PickIsLongest(text, secrets, e, i, p);
      AreApart(text, secrets, e, i, p, j);
      CutSome(text, secrets, e, i);
      var a, b, k := text[..i], text[i + |e|..], i + |e|;
      CutIsText(a, secrets);
      InsideThree(Cut(a, secrets), e, Cut(b, secrets), p, j);
      if j + |p| <= i {
        assert text[0..i] == a;
        ApartInPart(text, secrets, 0, i);
        PartOccurs(text, 0, i, p, j);
        CutHolds(a, secrets, p, j);
      } else if k <= j {
        assert text[k..|text|] == b;
        ApartInPart(text, secrets, k, |text|);
        PartOccurs(text, k, |text|, p, j - k);
        CutHolds(b, secrets, p, j - k);
      }
  }

  lemma AreApart(text: string, secrets: seq<string>, p: string, i: int, q: string, j: int)
    requires DisjointOrNested(text, secrets) && p in secrets && q in secrets
    requires OccursAt(text, p, i) && OccursAt(text, q, j)
    ensures Apart(i, p, j, q)
  {
  }

  /** With the longest first, the scrub of a text whose secret occurrences are disjoint or
      nested is the text with every outermost occurrence replaced by the marker, and all
      else unchanged. */
  lemma ScrubMasksOccurrences(text: string, secrets: seq<string>) returns (ps: seq<Piece>)
    requires Safe(secrets) && LongestFirst(secrets) && DisjointOrNested(text, secrets)
    ensures Flat(ps) == text && SecretsFrom(ps, secrets) && Tight(ps)
    ensures forall p :: p in secrets ==> OnlyInside(ps, p)
    ensures Scrubbed(text, secrets) == Flat(Masked(ps))
  {
    hide Clash, Cut, Scrubbed, Masked, Flat, LongestFirst, DisjointOrNested, Inside;
    ps := Cut(text, secrets);
    CutIsText(text, secrets);
    ScrubCut(text, secrets);
    forall p, j | p in secrets && OccursAt(text, p, j) ensures Inside(ps, p, j) {
      CutHolds(text, secrets, p, j);
    }
  }

  // ---- An overlap that is masked --------------------------------------------------------------------

  const WITH_REST := ["ponmlkjqwxy", "xybcdefghi", "bcdefghi"]

  lemma RestIsSecret(p: string, q: string, k: int)
    requires p in WITH_REST && q in WITH_REST && 0 < k < |p| && k < |q| && p[|p| - k..] == q[..k]
    ensures p == WITH_REST[0] && q == WITH_REST[1] && k == 2
  {
    assert p[|p| - k..][k - 1] == p[|p| - 1];
    assert q[..k][k - 1] == q[k - 1];
    if p == WITH_REST[0] {
      OnlyY(q, k - 1);
    } else {
      NoI(q, k - 1);
    }
  }

  lemma OnlyY(q: string, m: nat)
    requires q in WITH_REST && m < |q| - 1 && q[m] == 'y'
    ensures q == WITH_REST[1] && m == 1
  {
    if q == WITH_REST[0] {
      assert false;
    } else if q == WITH_REST[2] {
      assert false;
    }
  }

  lemma NoI(q: string, m: nat)
    requires q in WITH_REST && m < |q| - 1
    ensures q[m] != 'i'
  {
    if q == WITH_REST[0] {
      assert q[m] != 'i';
    } else if q == WITH_REST[1] {
      assert q[m] != 'i';
    }
  }

  /** Two of these secrets overlap; yet nothing of any is left in any text, because what
      the first leaves of the second is the third. */
  lemma OverlapCanBeMasked()
    ensures LongestFirst(WITH_REST) && Overlap(WITH_REST[0], WITH_REST[1]) && MasksAll(WITH_REST)
  {
    hide FirstPick, MasksAll, OccursAt;
    var first, second, third := WITH_REST[0], WITH_REST[1], WITH_REST[2];
    assert first[|first| - 2..] == second[..2];
    assert LongestFirst(WITH_REST);
    forall h, p, i: nat, q, j: nat | p in WITH_REST && q in WITH_REST && Meeting(h, p, i, q, j)
      && FirstPick(h, WITH_REST) == Some(Pick(p, i))
      ensures i + |p| <= |h| && AllCovered(h[..i], WITH_REST) && AllCovered(h[i + |p|..], WITH_REST)
    {
      MeetingBounds(h, p, i, q, j);
      PickIsLongest(h, WITH_REST, p, i, q);
      RestOfMeeting(h, p, i, q, j);
    }
    assert RestsAreSecrets(WITH_REST);
    MasksAllIff(WITH_REST);
  }

  lemma RestOfMeeting(h: string, p: string, i: nat, q: string, j: nat)
    requires p in WITH_REST && q in WITH_REST && Meeting(h, p, i, q, j) && |q| <= |p|
    ensures i + |p| <= |h| && AllCovered(h[..i], WITH_REST) && AllCovered(h[i + |p|..], WITH_REST)
  {
    hide OccursAt, AllCovered, Overlap;
    MeetingBounds(h, p, i, q, j);
    var k := i + |p|;
    if i < j && k < j + |q| {
      CrossingOverlaps(h, p, q, i, j);
      RestIsSecret(p, q, k - j);
      TailOf(h, q, j, k);
      ThirdIsCovered();
      NothingToCover();
    } else if j < i && j + |q| < k {
      CrossingOverlaps(h, q, p, j, i);
      RestIsSecret(q, p, j + |q| - i);
    } else {
      assert i == 0 && k == |h|;
      assert h[..i] == [] && h[k..] == [];
      NothingToCover();
    }
  }

  lemma TailOf(h: string, q: string, j: nat, k: nat)
    requires OccursAt(h, q, j) && j + |q| == |h| && j <= k <= |h|
    ensures h[k..] == q[k - j..]
  {
    assert h[j..j + |q|] == h[j..];
  }

  lemma NothingToCover()
    ensures AllCovered([], WITH_REST)
  {
  }

  lemma ThirdIsCovered()
    ensures WITH_REST[1][2..] == WITH_REST[2] && AllCovered(WITH_REST[2], WITH_REST)
  {
    var third := WITH_REST[2];
    assert third[0..|third|] == third;
    assert OccursAt(third, third, 0);
  }

  // ---- What an overlap leaves --------------------------------------------------------------------------

  lemma FirstOf(text: string, p: string, i: nat)
    requires OccursAt(text, p, i) && (i == 0 || forall j :: 0 <= j < i ==> !OccursAt(text, p, j))
    ensures FindFirst(text, p) == Some(i)
  {
    FirstIs(text, p, i);
  }

  /** The scrub of a text that starts with its first replacement. */
  lemma ScrubFront(p: string, z: string, secrets: seq<string>, n: nat)
    requires n < |secrets| && secrets[n] == p && "" !in secrets && Safe(secrets[n + 1..])
    requires forall m :: 0 <= m < n ==> !Occurs(p + z, secrets[m])
    ensures Scrubbed(p + z, secrets) == MARK + Scrubbed(z, secrets)
  {
    hide Occurs, Scrubbed, Safe, FindFirst;
    var text := p + z;
    assert text[0..|p|] == p && text[..0] == "" && text[|p|..] == z;
    FirstOf(text, p, 0);
    ScrubSplits(text, secrets, n, 0);
    ScrubNothing(secrets);
    assert "" + MARK + Scrubbed(z, secrets) == MARK + Scrubbed(z, secrets);
  }

  /** The scrub of a text that ends with its first replacement. */
  lemma ScrubBack(x: string, q: string, secrets: seq<string>, n: nat)
    requires n < |secrets| && secrets[n] == q && "" !in secrets && Safe(secrets[n + 1..])
    requires FindFirst(x + q, q) == Some(|x|) && forall m :: 0 <= m < n ==> !Occurs(x + q, secrets[m])
    ensures Scrubbed(x + q, secrets) == Scrubbed(x, secrets) + MARK
  {
    hide Occurs, Scrubbed, Safe, FindFirst;
    var text := x + q;
    assert text[..|x|] == x && text[|x| + |q|..] == "";
    ScrubSplits(text, secrets, n, |x|);
    ScrubNothing(secrets);
    assert Scrubbed(x, secrets) + MARK + "" == Scrubbed(x, secrets) + MARK;
  }

  /** Two secrets that overlap, in a list of any order of which the first one is replaced
      first: its marker is followed by the scrubbed tail of the second. So something of the
      second is left exactly unless the tail is made of secrets and nothing of those is. */
  lemma OverlapLeaksTail(x: string, y: string, z: string, secrets: seq<string>, n: nat)
    requires n < |secrets| && secrets[n] == x + y && y + z in secrets && "" !in secrets && y != ""
    requires forall m :: 0 <= m < n ==> !Occurs(x + y + z, secrets[m])
    ensures Safe(secrets[n + 1..]) ==> Scrubbed(x + y + z, secrets) == MARK + Scrubbed(z, secrets)
    ensures LeavesNothing(x + y + z, secrets) <==> LeavesNothing(z, secrets) && AllCovered(z, secrets)
  {
    hide Occurs, Scrubbed, Safe, LeavesNothing, AllCovered, FirstPick, FindFirst, Clash;
    if Safe(secrets[n + 1..]) {
      ScrubFront(x + y, z, secrets, n);
    }
    var text, k := x + y + z, |x + y|;
    assert text[0..k] == x + y && text[..0] == "" && text[k..] == z;
    FirstOf(text, x + y, 0);
    PickIs(text, secrets, n, 0);
    assert text[|x|..|x| + |y + z|] == y + z;
    RestsOfPick(text, secrets, x + y, 0, y + z, |x|);
    EmptyLeavesNothing(secrets);
  }

  /** The same when the second one is replaced first: the head of the first is left. */
  lemma OverlapLeaksHead(x: string, y: string, z: string, secrets: seq<string>, n: nat)
    requires n < |secrets| && secrets[n] == y + z && x + y in secrets && "" !in secrets && y != ""
    requires forall m :: 0 <= m < n ==> !Occurs(x + y + z, secrets[m])
    requires forall j :: 0 <= j < |x| ==> !OccursAt(x + y + z, y + z, j)
    ensures Safe(secrets[n + 1..]) ==> Scrubbed(x + y + z, secrets) == Scrubbed(x, secrets) + MARK
    ensures LeavesNothing(x + y + z, secrets) <==> LeavesNothing(x, secrets) && AllCovered(x, secrets)
  {
    hide Occurs, Scrubbed, Safe, LeavesNothing, AllCovered, FirstPick, FindFirst, Clash;
    var text, q := x + y + z, y + z;
    assert text == x + q;
    assert text[|x|..|x| + |q|] == q && text[..|x|] == x && text[|x| + |q|..] == "";
    FirstOf(text, q, |x|);
    if Safe(secrets[n + 1..]) {
      ScrubBack(x, q, secrets, n);
    }
    PickIs(text, secrets, n, |x|);
    assert text[0..|x + y|] == x + y;
    RestsOfPick(text, secrets, q, |x|, x + y, 0);
    EmptyLeavesNothing(secrets);
  }

  lemma {:induction false} ScrubNothing(secrets: seq<string>)
    requires "" !in secrets
    ensures Scrubbed("", secrets) == ""
  {
    forall s | s in secrets ensures !Occurs("", s) {
    }
    CleanIsKept("", secrets);
  }

  lemma EmptyLeavesNothing(secrets: seq<string>)
    ensures LeavesNothing("", secrets) && AllCovered("", secrets)
  {
    forall x ensures !Covered("", secrets, x) {
    }
  }
}
