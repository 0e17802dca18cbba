/** The logging filter around the redactor: its cached list of secrets, and the log
    record it rewrites in place. */
module RedactingFilter {
  import opened Text
  import opened Redactor
  import opened RedactorPieces
  import opened RedactorParts
  import opened LogRecords
  import opened LogLines

  type Time = real

  const SECRETS_TTL_SECS := 5.0

  /** What the provider hands out: strings, and things that are not. */
  datatype Item = Str(s: string) | NotStr

  // ---- The list of secrets ----------------------------------------------------------------

  /** The provider's strings that are long enough. */
  function Chosen(raw: seq<Item>): set<string> {
    set item | item in raw && item.Str? && |item.s| >= MIN_LEN :: item.s
  }

  lemma ChosenFrom(raw: seq<Item>)
    ensures forall s :: s in Chosen(raw) <==> Str(s) in raw && |s| >= 8
  {
    forall s ensures s in Chosen(raw) <==> Str(s) in raw && |s| >= 8 {
      assert Str(s) in raw ==> Str(s).Str? && Str(s).s == s;
    }
  }

  ghost predicate Lists(secrets: seq<string>, chosen: set<string>) {
    LongestFirst(secrets) && forall s :: s in secrets <==> s in chosen
  }

  /** Sorted by length, longest first. */
  method SortLongest(chosen: set<string>) returns (r: seq<string>)
    ensures Lists(r, chosen)
  {
    r := [];
    var rest := chosen;
    while rest != {}
      invariant rest <= chosen && Lists(r, chosen - rest)
      decreases |rest|
    {
      var s :| s in rest;
      rest := rest - {s};
      var i := 0;
      while i < |r| && |r[i]| >= |s|
        invariant i <= |r| && forall k :: 0 <= k < i ==> |r[k]| >= |s|
      {
        i := i + 1;
      }
      InsertedLists(r, chosen - rest - {s}, s, i);
      assert chosen - rest - {s} + {s} == chosen - rest;
      r := r[..i] + [s] + r[i..];
    }
  }

  lemma InsertedMember(r: seq<string>, s: string, i: nat, x: string)
    requires i <= |r|
    ensures x in r[..i] + [s] + r[i..] <==> x == s || x in r
  {
    assert r == r[..i] + r[i..];
  }

  lemma InsertedOrder(r: seq<string>, s: string, i: nat)
    requires LongestFirst(r) && s !in r && i <= |r|
    requires forall k :: 0 <= k < i ==> |r[k]| >= |s|
    requires i < |r| ==> |r[i]| < |s|
    ensures LongestFirst(r[..i] + [s] + r[i..])
  {
    var t := r[..i] + [s] + r[i..];
    forall j, k | 0 <= j < k < |t| ensures |t[j]| >= |t[k]| && t[j] != t[k] {
      assert t[j] == if j < i then r[j] else if j == i then s else r[j - 1];
      assert t[k] == if k < i then r[k] else if k == i then s else r[k - 1];
    }
  }

  lemma InsertedLists(r: seq<string>, chosen: set<string>, s: string, i: nat)
    requires Lists(r, chosen) && s !in chosen && i <= |r|
    requires forall k :: 0 <= k < i ==> |r[k]| >= |s|
    requires i < |r| ==> |r[i]| < |s|
    ensures Lists(r[..i] + [s] + r[i..], chosen + {s})
  {
    hide LongestFirst;
    InsertedOrder(r, s, i);
    forall x ensures x in r[..i] + [s] + r[i..] <==> x in chosen + {s} {
      InsertedMember(r, s, i, x);
    }
  }

  // ---- A log record -------------------------------------------------------------------------

  /** The record after `filter`: rewriting stops where a value cannot be rendered. */
  function Filtered(f: Fields, secrets: seq<string>): Fields {
    if secrets == [] || f.msg.None? then f
    else
      var g := f.(msg := Some(Scrubbed(f.msg.value, secrets)));
      if f.args.OtherArgs? then WithException(g, secrets)
      else if ArgsRender(f.args) then WithException(g.(args := ScrubbedArgs(f.args, secrets)), secrets)
      else g
  }

  function WithException(f: Fields, secrets: seq<string>): Fields {
    if f.exc.Some? && f.exc.value.Some? then f.(excText := Some(Scrubbed(f.exc.value.value, secrets))) else f
  }

  function ValuesOf(args: Args): seq<Value> {
    match args
    case NoArgs => []
    case Named(fields) => Values(fields)
    case Positional(items) => items
    case OtherArgs(x, _) => [x]
  }

  /** The arguments' texts, as far as they can be rendered. */
  function ArgTexts(args: Args): (r: seq<Rendering>)
    ensures |r| == |ValuesOf(args)| && forall i :: 0 <= i < |r| ==> r[i] == ValuesOf(args)[i].text
  {
    var values := ValuesOf(args);
    seq(|values|, i requires 0 <= i < |values| => values[i].text)
  }

  /** The exception's text in the output: the cached one, or else the formatter's own. */
  function ExcShown(f: Fields): Rendering {
    if f.excText.Some? then f.excText else if f.exc.Some? then f.exc.value else None
  }

  ghost predicate CleanText(x: Rendering, secrets: seq<string>) {
    x.Some? ==> Clean(x.value, secrets)
  }

  ghost predicate CleanTexts(xs: seq<Rendering>, secrets: seq<string>) {
    forall i :: 0 <= i < |xs| ==> CleanText(xs[i], secrets)
  }

  /** Neither a part of the record nor the line a formatter makes of it shows a secret. */
  ghost predicate Hides(f: Fields, secrets: seq<string>) {
    PartsHide(f, secrets) && CleanText(Rendered(f), secrets)
  }

  ghost predicate PartsHide(f: Fields, secrets: seq<string>) {
    && CleanText(f.msg, secrets)
    && CleanTexts(ArgTexts(f.args), secrets)
    && CleanText(ExcShown(f), secrets)
  }

  /** The pass gets beyond the message and rewrites the arguments. */
  predicate RewritesArgs(f: Fields) {
    f.msg.Some? && ArgsRender(f.args)
  }

  /** The pass ends early: the message or some argument cannot be rendered. */
  predicate StopsEarly(f: Fields) {
    f.msg.None? || (!f.args.OtherArgs? && !ArgsRender(f.args))
  }

  predicate RewritesException(f: Fields) {
    !StopsEarly(f) && f.exc.Some? && f.exc.value.Some?
  }

  /** What the pass leaves alone is clean already. */
  ghost predicate LeftAloneIsClean(f: Fields, secrets: seq<string>) {
    && (!RewritesArgs(f) ==> CleanTexts(ArgTexts(f.args), secrets))
    && (!RewritesException(f) ==> CleanText(ExcShown(f), secrets))
  }

  /** The parts the line is made of: the runs of the scrubbed message, and the arguments
      before the pass. */
  function PartsOf(f: Fields, secrets: seq<string>): Option<seq<Part>> {
    if f.msg.None? then None
    else if NoneGiven(f.args) then Some([Part(f.msg.value, true)])
    else
      match Tokens(Scrubbed(f.msg.value, secrets))
      case None => None
      case Some(ts) => LineParts(ts, f.args, 0, RewritesArgs(f), false)
  }

  /** Every secret in the line of the scrubbed message and the arguments as given is
      touched by what is masked within the arguments. */
  ghost predicate NoneAcross(f: Fields, secrets: seq<string>) {
    PartsOf(f, secrets).Some? ==> NoneSurvives(LinePieces(PartsOf(f, secrets).value, secrets), secrets)
  }

  lemma ScrubbedAllClean(args: Args, secrets: seq<string>)
    requires ArgsRender(args) && Safe(secrets)
    ensures CleanTexts(ArgTexts(ScrubbedArgs(args, secrets)), secrets)
  {
    hide Scrubbed, Clean, Safe;
    var after := ScrubbedArgs(args, secrets);
    forall i | 0 <= i < |ArgTexts(after)| ensures CleanText(ArgTexts(after)[i], secrets) {
      ValueAfter(args, secrets, i);
      ScrubHides(ValuesOf(args)[i].text.value, secrets);
    }
  }

  lemma ValueAfter(args: Args, secrets: seq<string>, i: nat)
    requires ArgsRender(args) && i < |ValuesOf(ScrubbedArgs(args, secrets))|
    ensures |ValuesOf(args)| == |ValuesOf(ScrubbedArgs(args, secrets))| && ValuesOf(args)[i].text.Some?
    ensures ValuesOf(ScrubbedArgs(args, secrets))[i] == ScrubbedValue(ValuesOf(args)[i], secrets)
  {
    hide ScrubbedValue;
  }

  /** What the pass makes of each part. */
  lemma FilteredParts(f: Fields, secrets: seq<string>)
    requires secrets != []
    ensures var g := Filtered(f, secrets);
            && g.msg == (if f.msg.Some? then Some(Scrubbed(f.msg.value, secrets)) else None)
            && (RewritesArgs(f) ==> ArgsRender(f.args))
            && g.args == AfterArgs(f.args, secrets, RewritesArgs(f))
            && (RewritesException(f) ==> g.excText == Some(Scrubbed(f.exc.value.value, secrets)))
            && (!RewritesException(f) ==> g.exc == f.exc && g.excText == f.excText)
  {
    hide Scrubbed, ScrubbedArgs;
  }

  /** The line after the pass is the line before it with its parts scrubbed one by one. */
  lemma RenderedAfter(f: Fields, secrets: seq<string>)
    requires secrets != []
    ensures Rendered(Filtered(f, secrets)) ==
      if PartsOf(f, secrets).None? then None else Some(AfterPass(PartsOf(f, secrets).value, secrets))
  {
    hide Scrubbed, Filtered, RewritesArgs, AfterPass, LineParts, Texts, Tokens;
    FilteredParts(f, secrets);
    if f.msg.Some? {
      NoneGivenAfter(f.args, secrets, RewritesArgs(f));
      if NoneGiven(f.args) {
        AfterOne(Part(f.msg.value, true), secrets);
      } else {
        var ts := Tokens(Scrubbed(f.msg.value, secrets));
        if ts.Some? {
          TextsAfter(ts.value, f.args, 0, secrets, RewritesArgs(f), false);
        }
      }
    }
  }

  lemma NoneGivenAfter(args: Args, secrets: seq<string>, rewritten: bool)
    requires rewritten ==> ArgsRender(args)
    ensures NoneGiven(AfterArgs(args, secrets, rewritten)) <==> NoneGiven(args)
  {
    if rewritten && !args.NoArgs? && NoneGiven(args) {
      assert AfterArgs(args, secrets, rewritten) == args;
    }
  }

  lemma LineHidesIff(f: Fields, secrets: seq<string>)
    requires Safe(secrets) && secrets != []
    ensures CleanText(Rendered(Filtered(f, secrets)), secrets) <==> NoneAcross(f, secrets)
  {
    hide Scrubbed, Filtered, Safe, Clean, AfterPass, LinePieces, PartsOf, NoneSurvives;
    RenderedAfter(f, secrets);
    if PartsOf(f, secrets).Some? {
      LineCleanIff(PartsOf(f, secrets).value, secrets);
    }
  }

  /** With secrets the marker does not clash with, neither the record nor its line shows
      one after the pass if and only if the parts the pass leaves alone show none (arguments
      that are neither dictionary nor tuple; all arguments, when the message or one of them
      cannot be rendered; and the exception, then or when it cannot be rendered itself), and
      no secret of the line runs across its parts, unless masking within a part touches it. */
  lemma FilterHidesIff(f: Fields, secrets: seq<string>)
    requires Safe(secrets) && secrets != []
    ensures Hides(Filtered(f, secrets), secrets) <==> LeftAloneIsClean(f, secrets) && NoneAcross(f, secrets)
  {
    hide Scrubbed, Clean, Safe, Filtered, StopsEarly, RewritesArgs, RewritesException, Rendered, NoneAcross,
      ScrubbedArgs, ArgTexts;
    FilteredParts(f, secrets);
    LineHidesIff(f, secrets);
    if f.msg.Some? {
      ScrubHides(f.msg.value, secrets);
    }
    if RewritesArgs(f) {
      ScrubbedAllClean(f.args, secrets);
    }
    if RewritesException(f) {
      RewrittenException(f);
      ScrubHides(f.exc.value.value, secrets);
    }
  }

  lemma RewrittenException(f: Fields)
    ensures RewritesException(f) ==> f.exc.Some? && f.exc.value.Some?
  {
  }

  /** Message and exception can be rendered, and the arguments are none, a dictionary or a
      tuple, of values that can be. */
  predicate Rewritable(f: Fields) {
    && f.msg.Some? && !f.args.OtherArgs?
    && (forall i :: 0 <= i < |ValuesOf(f.args)| ==> ValuesOf(f.args)[i].text.Some?)
    && (if f.exc.Some? then f.exc.value.Some? else f.excText.None?)
  }

  lemma RewritableIsRewritten(f: Fields)
    requires Rewritable(f)
    ensures RewritesArgs(f) && !StopsEarly(f)
  {
    var values := ValuesOf(f.args);
    match f.args
    case Named(fields) =>
      forall i | 0 <= i < |Values(fields)| ensures Values(fields)[i].text.Some? {
        assert values[i].text.Some?;
      }
    case Positional(items) =>
      forall i | 0 <= i < |items| ensures items[i].text.Some? {
        assert values[i].text.Some?;
      }
    case _ =>
  }

  /** In a record whose parts the filter can rewrite, no part is left with a secret, so
      only a secret across parts of the line can be. */
  lemma FilterHides(f: Fields, secrets: seq<string>)
    requires Rewritable(f) && Safe(secrets)
    ensures PartsHide(Filtered(f, secrets), secrets)
    ensures Hides(Filtered(f, secrets), secrets) <==> secrets == [] || NoneAcross(f, secrets)
  {
    hide Safe, Clean, Scrubbed, Filtered, Rendered, NoneAcross, ScrubbedArgs, ArgTexts;
    RewritableIsRewritten(f);
    if secrets == [] {
      EmptyIsClean();
    } else {
      FilterHidesIff(f, secrets);
      FilteredParts(f, secrets);
      ScrubHides(f.msg.value, secrets);
      ScrubbedAllClean(f.args, secrets);
      if f.exc.Some? {
        ScrubHides(f.exc.value.value, secrets);
      }
    }
  }

  // ---- The line as the caller gives it -----------------------------------------------------------

  /** The parts of the line before the pass, literal runs of the message among them. */
  function CallersParts(f: Fields): Option<seq<Part>> {
    if f.msg.None? then None
    else if NoneGiven(f.args) then Some([Part(f.msg.value, true)])
    else
      match Tokens(f.msg.value)
      case None => None
      case Some(ts) => LineParts(ts, f.args, 0, RewritesArgs(f), true)
  }

  /** The message can be read, and no secret in it touches a placeholder. */
  ghost predicate TemplateIsApart(f: Fields, secrets: seq<string>) {
    f.msg.Some? && (NoneGiven(f.args) || (Tokens(f.msg.value).Some? && LiteralsHold(f.msg.value, secrets)))
  }

  /** When no secret touches a placeholder, the line after the pass is the caller's with
      each run and argument scrubbed, and shows no secret if and only if every occurrence in
      the caller's line is touched by what is masked within these. */
  lemma CallersLineIff(f: Fields, secrets: seq<string>)
    requires Safe(secrets) && secrets != [] && TemplateIsApart(f, secrets)
    ensures Rendered(Filtered(f, secrets)) ==
      if CallersParts(f).None? then None else Some(AfterPass(CallersParts(f).value, secrets))
    ensures CallersParts(f).Some? ==>
      (CleanText(Rendered(Filtered(f, secrets)), secrets) <==>
        NoneSurvives(LinePieces(CallersParts(f).value, secrets), secrets))
  {
    hide Scrubbed, Filtered, RewritesArgs, AfterPass, LineParts, Texts, Tokens, Safe, Clean, LinePieces, NoneSurvives;
    FilteredParts(f, secrets);
    NoneGivenAfter(f.args, secrets, RewritesArgs(f));
    if NoneGiven(f.args) {
      AfterOne(Part(f.msg.value, true), secrets);
    } else {
      TokensAfter(f.msg.value, secrets);
      TextsAfter(Tokens(f.msg.value).value, f.args, 0, secrets, RewritesArgs(f), true);
    }
    if CallersParts(f).Some? {
      LineCleanIff(CallersParts(f).value, secrets);
    }
  }

  /** So it shows none if each secret of the caller's line lies within one scrubbed part. */
  lemma WithinPartsIsHidden(f: Fields, secrets: seq<string>)
    requires Safe(secrets) && secrets != [] && TemplateIsApart(f, secrets) && CallersParts(f).Some?
    requires forall s, j :: s in secrets && OccursAt(Line(CallersParts(f).value), s, j) ==>
      WithinScrubbed(CallersParts(f).value, j, |s|)
    ensures CleanText(Rendered(Filtered(f, secrets)), secrets)
  {
    hide Safe, Clean, Filtered, CallersParts, OccursAt, WithinScrubbed, TemplateIsApart, AfterPass;
    CallersLineIff(f, secrets);
    NoneStraddles(CallersParts(f).value, secrets);
  }

  /** A conversion a text has, too. */
  predicate OfTexts(conv: string) {
    conv == "s" || conv == "r"
  }

  predicate TextHoles(ts: seq<Token>) {
    forall i :: 0 <= i < |ts| && ts[i].Hole? ==> OfTexts(ts[i].conv)
  }

  /** What `repr` makes of the values is their text in quotes. */
  predicate ReprsQuote(args: Args) {
    forall i :: 0 <= i < |ValuesOf(args)| ==> QuotesText(ValuesOf(args)[i])
  }

  predicate QuotesText(v: Value) {
    "r" in v.forms ==> v.text.Some? && v.forms["r"] == Quoted(v.text.value)
  }

  lemma {:induction false} FieldIn(fields: seq<(string, Value)>, key: string)
    ensures FieldOf(fields, key).Some? ==> FieldOf(fields, key).value in Values(fields)
  {
    if fields != [] {
      assert Values(fields)[0] == fields[0].1;
      if fields[0].0 != key {
        FieldIn(fields[1..], key);
        assert Values(fields)[1..] == Values(fields[1..]);
      }
    }
  }

  lemma LookupIn(args: Args, key: Option<string>, k: nat)
    ensures Lookup(args, key, k).Some? ==> Lookup(args, key, k).value in ValuesOf(args)
  {
    if args.Named? && key.Some? {
      FieldIn(args.fields, key.value);
    }
  }

  /** A hole of a record without secrets, before and after. */
  lemma HoleSame(args: Args, key: Option<string>, conv: string, k: nat, secrets: seq<string>)
    requires ArgsRender(args) && ReprsQuote(args) && CleanTexts(ArgTexts(args), secrets)
    requires Lookup(args, key, k).Some? && Convert(Lookup(args, key, k).value, conv).Some?
    ensures Lookup(ScrubbedArgs(args, secrets), key, k).Some?
    ensures Convert(Lookup(ScrubbedArgs(args, secrets), key, k).value, conv)
         == if OfTexts(conv) then Convert(Lookup(args, key, k).value, conv) else None
  {
    hide Scrubbed, Lookup, ScrubbedArgs, Clean;
    LookupIn(args, key, k);
    LookupAfter(args, key, k, secrets);
    var v := Lookup(args, key, k).value;
    var i :| 0 <= i < |ValuesOf(args)| && ValuesOf(args)[i] == v;
    assert CleanText(ArgTexts(args)[i], secrets);
    CleanIsKept(v.text.value, secrets);
  }

  lemma {:induction false} TextsSame(ts: seq<Token>, args: Args, k: nat, secrets: seq<string>)
    requires ArgsRender(args) && ReprsQuote(args) && CleanTexts(ArgTexts(args), secrets)
    requires Texts(ts, args, k).Some?
    ensures Texts(ts, ScrubbedArgs(args, secrets), k) == if TextHoles(ts) then Texts(ts, args, k) else None
    decreases |ts|
  {
    hide Scrubbed, Lookup, ScrubbedArgs, Convert, CleanTexts, ReprsQuote, AllUsed, OfTexts;
    if ts == [] {
      AllUsedAfter(args, k, secrets, true);
    } else {
      assert TextHoles(ts) <==> (ts[0].Hole? ==> OfTexts(ts[0].conv)) && TextHoles(ts[1..]) by {
        TextHolesStep(ts);
      }
      match ts[0]
      case Hole(key, conv) =>
        HoleSame(args, key, conv, k, secrets);
        TextsSame(ts[1..], args, k + 1, secrets);
      case _ =>
        TextsSame(ts[1..], args, k, secrets);
    }
  }

  lemma TextHolesStep(ts: seq<Token>)
    requires ts != []
    ensures TextHoles(ts) <==> (ts[0].Hole? ==> OfTexts(ts[0].conv)) && TextHoles(ts[1..])
  {
    hide OfTexts;
    if (ts[0].Hole? ==> OfTexts(ts[0].conv)) && TextHoles(ts[1..]) {
      forall i | 0 <= i < |ts| && ts[i].Hole? ensures OfTexts(ts[i].conv) {
        if i > 0 {
          assert ts[1..][i - 1] == ts[i];
        }
      }
    }
  }

  lemma {:induction false} LineAppend(a: seq<Part>, b: seq<Part>)
    ensures Line(a + b) == Line(a) + Line(b)
  {
    if a == [] {
      assert a + b == b;
      assert "" + Line(b) == Line(b);
    } else {
      LineAppend(a[1..], b);
      assert (a + b)[1..] == a[1..] + b;
      assert a[0].text + (Line(a[1..]) + Line(b)) == a[0].text + Line(a[1..]) + Line(b);
    }
  }

  lemma HoleLine(v: Value, conv: string, rewritten: bool)
    requires Convert(v, conv).Some?
    requires rewritten ==> v.text.Some? && OfTexts(conv) && QuotesText(v)
    ensures HoleParts(v, conv, rewritten).Some? && Line(HoleParts(v, conv, rewritten).value) == Convert(v, conv).value
  {
    var parts := HoleParts(v, conv, rewritten).value;
    if |parts| == 1 {
      OneLinePart(parts[0]);
    } else {
      var q, p := Part("'", false), parts[1];
      OneLinePart(p);
      OneLinePart(q);
      LineAppend([q], [p]);
      LineAppend([q] + [p], [q]);
      assert [q] + [p] + [q] == parts;
    }
  }

  lemma {:induction false} PartsAreTexts(ts: seq<Token>, args: Args, k: nat, rewritten: bool)
    requires rewritten ==> ArgsRender(args) && ReprsQuote(args) && TextHoles(ts)
    requires Texts(ts, args, k).Some?
    ensures var parts := LineParts(ts, args, k, rewritten, true);
            parts.Some? && Line(parts.value) == Concat(Texts(ts, args, k).value)
    decreases |ts|
  {
    hide Lookup, Convert, AllUsed, OfTexts, Concat, Line, HoleParts;
    if ts == [] {
      assert Concat([]) == "" && Line([]) == "" by {
        NothingAtAll();
      }
    } else {
      TextHolesStep(ts);
      match ts[0]
      case Hole(key, conv) =>
        var v := Lookup(args, key, k).value;
        LookupIn(args, key, k);
        if rewritten {
          var i :| 0 <= i < |ValuesOf(args)| && ValuesOf(args)[i] == v;
          RendersAll(args, i);
        }
        HoleLine(v, conv, rewritten);
        PartsAreTexts(ts[1..], args, k + 1, rewritten);
        ConcatCons(Convert(v, conv).value, Texts(ts[1..], args, k + 1).value);
        LineAppend(HoleParts(v, conv, rewritten).value, LineParts(ts[1..], args, k + 1, rewritten, true).value);
      case Lit(s) =>
        PartsAreTexts(ts[1..], args, k, rewritten);
        OneMore(Part(s, true), Texts(ts[1..], args, k).value, LineParts(ts[1..], args, k, rewritten, true).value);
      case Percent =>
        PartsAreTexts(ts[1..], args, k, rewritten);
        OneMore(Part("%", false), Texts(ts[1..], args, k).value, LineParts(ts[1..], args, k, rewritten, true).value);
    }
  }

  lemma OneMore(p: Part, xs: seq<string>, parts: seq<Part>)
    requires Line(parts) == Concat(xs)
    ensures Line([p] + parts) == Concat([p.text] + xs)
  {
    ConcatCons(p.text, xs);
    LineAppend([p], parts);
    OneLinePart(p);
  }

  lemma NothingAtAll()
    ensures Concat([]) == "" && Line([]) == ""
  {
  }

  lemma OneLinePart(p: Part)
    ensures Line([p]) == p.text
  {
    assert p.text + "" == p.text;
  }

  lemma RendersAll(args: Args, i: nat)
    requires ArgsRender(args) && i < |ValuesOf(args)|
    ensures ValuesOf(args)[i].text.Some?
  {
  }

  /** The caller's line is what the record would have rendered to without the filter, when
      its arguments are only shown as text. */
  lemma CallersLineIsRendered(f: Fields)
    requires Rendered(f).Some?
    requires RewritesArgs(f) && !NoneGiven(f.args) ==> ReprsQuote(f.args) && TextHoles(Tokens(f.msg.value).value)
    ensures CallersParts(f).Some? && Line(CallersParts(f).value) == Rendered(f).value
  {
    hide RewritesArgs, Tokens, Texts, LineParts, Line, ReprsQuote, TextHoles;
    if NoneGiven(f.args) {
      OneLinePart(Part(f.msg.value, true));
    } else {
      RewritableArgs(f);
      PartsAreTexts(Tokens(f.msg.value).value, f.args, 0, RewritesArgs(f));
    }
  }

  lemma RewritableArgs(f: Fields)
    ensures RewritesArgs(f) ==> ArgsRender(f.args)
  {
  }

  /** A record without secrets that renders: as soon as any secret is configured, its line
      stays the same if and only if it has no arguments or only placeholders a text fits;
      with any other, such as `%d`, it can no longer be rendered, as every argument has
      become a text. */
  lemma SameLineIff(f: Fields, secrets: seq<string>)
    requires secrets != [] && RewritesArgs(f) && ReprsQuote(f.args) && Rendered(f).Some?
    requires CleanText(f.msg, secrets) && CleanTexts(ArgTexts(f.args), secrets)
    ensures Rendered(Filtered(f, secrets)) == Rendered(f)
      <==> NoneGiven(f.args) || TextHoles(Tokens(f.msg.value).value)
    ensures Rendered(Filtered(f, secrets)) != Rendered(f) ==> Rendered(Filtered(f, secrets)).None?
  {
    hide Scrubbed, Filtered, Texts, Tokens, TextHoles, CleanTexts, ReprsQuote, ScrubbedArgs, Clean;
    FilteredParts(f, secrets);
    CleanIsKept(f.msg.value, secrets);
    NoneGivenAfter(f.args, secrets, true);
    if !NoneGiven(f.args) {
      TextsSame(Tokens(f.msg.value).value, f.args, 0, secrets);
    }
  }

  // ---- Inputs -----------------------------------------------------------------------------------------

  function Call(msg: string, items: seq<Value>): Fields {
    Fields(Some(msg), Positional(items), None, None)
  }

  lemma CleanCallIsKept(msg: string, items: seq<Value>, secrets: seq<string>)
    requires Clean(msg, secrets) && forall i :: 0 <= i < |items| ==> IsCleanText(items[i], secrets)
    ensures Filtered(Call(msg, items), secrets) == Call(msg, items)
  {
    hide Scrubbed, Clean;
    if secrets != [] {
      CleanIsKept(msg, secrets);
      forall i | 0 <= i < |items| ensures items[i].text.Some? && ScrubbedValue(items[i], secrets) == items[i] {
        assert IsCleanText(items[i], secrets);
        CleanIsKept(items[i].text.value, secrets);
      }
      assert ScrubbedAll(items, secrets) == items;
    }
  }

  ghost predicate IsCleanText(v: Value, secrets: seq<string>) {
    v.text.Some? && v == OfText(v.text.value) && Clean(v.text.value, secrets)
  }

  lemma TokensOfHole(rest: string)
    ensures Tokens("%s" + rest) == Before(Hole(None, "s"), Tokens(rest))
  {
    var s := "%s" + rest;
    assert s[0] == '%' && s[1] == 's' && s[1..2] == "s" && s[2..] == rest;
    assert FlagsEnd(s, 1) == 1;
  }

  /** A secret whose beginning is in the message and whose end is the argument passes whole,
      whichever way it is divided. */
  lemma SplitSecretShows(u: string, v: string, secrets: seq<string>)
    requires u + v in secrets && u != "" && '%' !in u && Clean(u + "%s", secrets) && Clean(v, secrets)
    ensures var f := Call(u + "%s", [OfText(v)]);
            && Filtered(f, secrets) == f && LeftAloneIsClean(f, secrets)
            && Rendered(f) == Some(u + v) && !Hides(Filtered(f, secrets), secrets)
  {
    hide Scrubbed, Clean, Tokens;
    var f := Call(u + "%s", [OfText(v)]);
    CleanCallIsKept(u + "%s", [OfText(v)], secrets);
    TokensOfHole("");
    assert "%s" + "" == "%s";
    NoTokens();
    TokensOfRun(u, "%s");
    assert [Hole(None, "s")] + [] == [Hole(None, "s")];
    assert [Lit(u)] + [Hole(None, "s")] == [Lit(u), Hole(None, "s")];
    TwoTexts([Lit(u), Hole(None, "s")], f.args, u, v);
    WholeOccurs(u + v, secrets);
  }

  lemma NoTokens()
    ensures Tokens("") == Some([])
  {
  }

  lemma TwoTexts(ts: seq<Token>, args: Args, u: string, v: string)
    requires |ts| == 2 && ts[1] == Hole(None, "s")
    requires (ts[0] == Lit(u) && args == Positional([OfText(v)]))
          || (ts[0] == Hole(None, "s") && args == Positional([OfText(u), OfText(v)]))
    ensures Texts(ts, args, 0).Some? && Concat(Texts(ts, args, 0).value) == u + v
  {
    assert ts[1..][1..] == [];
    var k := if ts[0].Lit? then 0 else 1;
    assert Texts(ts[1..][1..], args, k + 1) == Some([]);
    assert Texts(ts[1..], args, k) == Some([v] + []);
    assert [v] + [] == [v];
    assert Texts(ts, args, 0) == Some([u] + [v]);
    ConcatCons(u, [v]);
    assert Concat([v]) == v + Concat([]) == v;
  }

  lemma WholeOccurs(s: string, secrets: seq<string>)
    requires s in secrets
    ensures !Clean(s, secrets)
  {
    assert s[0..|s|] == s;
    assert OccursAt(s, s, 0);
  }

  /** So does one divided between two arguments that stand side by side. */
  lemma AdjacentArgsShow(u: string, v: string, secrets: seq<string>)
    requires u + v in secrets && Clean("%s%s", secrets) && Clean(u, secrets) && Clean(v, secrets)
    ensures var f := Call("%s%s", [OfText(u), OfText(v)]);
            && Filtered(f, secrets) == f && LeftAloneIsClean(f, secrets)
            && Rendered(f) == Some(u + v) && !Hides(Filtered(f, secrets), secrets)
  {
    hide Scrubbed, Clean, Tokens;
    var f := Call("%s%s", [OfText(u), OfText(v)]);
    CleanCallIsKept("%s%s", [OfText(u), OfText(v)], secrets);
    TokensOfHole("");
    assert "%s" + "" == "%s" && "%s" + "%s" == "%s%s";
    NoTokens();
    TokensOfHole("%s");
    assert [Hole(None, "s")] + [] == [Hole(None, "s")];
    assert [Hole(None, "s")] + [Hole(None, "s")] == [Hole(None, "s"), Hole(None, "s")];
    TwoTexts([Hole(None, "s"), Hole(None, "s")], f.args, u, v);
    WholeOccurs(u + v, secrets);
  }

  /** A key logged after its usual prefix. */
  lemma KeyAfterPrefixShows()
    ensures var f := Call("sk-proj-%s", [OfText("ABCDEFGH")]);
            var secrets := ["sk-proj-ABCDEFGH"];
            Filtered(f, secrets) == f && Rendered(f) == Some("sk-proj-ABCDEFGH") && !Hides(f, secrets)
  {
    hide Filtered, Rendered, Hides;
    var u, v := "sk-proj-", "ABCDEFGH";
    assert u + v == "sk-proj-ABCDEFGH" && u + "%s" == "sk-proj-%s";
    SplitSecretShows(u, v, ["sk-proj-ABCDEFGH"]);
  }

  /** A record with a number and no secret is lost, whatever secrets are configured. */
  lemma NumberLosesLine(secrets: seq<string>)
    requires secrets != [] && Clean("%d", secrets) && Clean("5", secrets)
    ensures var f := Call("%d", [Value(Some("5"), map["d" := "5"])]);
            Rendered(f) == Some("5") && Rendered(Filtered(f, secrets)).None?
  {
    hide Clean, Filtered, Texts, Tokens, Placeholder;
    var f := Call("%d", [Value(Some("5"), map["d" := "5"])]);
    TokensOfNumber();
    TextsOfNumber(f.args);
    var ts := [Hole(None, "d")];
    assert ts[0].Hole? && !OfTexts(ts[0].conv);
    SameLineIff(f, secrets);
  }

  lemma TokensOfNumber()
    ensures Tokens("%d") == Some([Hole(None, "d")])
  {
    assert "%d"[1..2] == "d" && FlagsEnd("%d", 1) == 1;
    assert Placeholder("%d") == Some((Hole(None, "d"), 2));
    NoTokens();
    assert "%d"[2..] == "" && [Hole(None, "d")] + [] == [Hole(None, "d")];
  }

  lemma TextsOfNumber(args: Args)
    requires args == Positional([Value(Some("5"), map["d" := "5"])])
    ensures Texts([Hole(None, "d")], args, 0) == Some(["5"]) && Concat(["5"]) == "5"
  {
    assert Texts([Hole(None, "d")], args, 0) == Some(["5"] + []);
    assert ["5"] + [] == ["5"] && Concat(["5"]) == "5" + Concat([]) == "5";
  }

  // ---- Parts left alone -------------------------------------------------------------------------------

  /** A secret in a part left alone stays readable. */
  lemma LeftAloneLeaks(f: Fields, secrets: seq<string>, s: string)
    requires s in secrets
    requires || (!RewritesArgs(f) && exists i :: 0 <= i < |ArgTexts(f.args)| && Shows(ArgTexts(f.args)[i], s))
             || (!RewritesException(f) && Shows(ExcShown(f), s))
    ensures !Hides(Filtered(f, secrets), secrets)
  {
    hide Scrubbed, Filtered, Occurs, RewritesArgs, RewritesException, Rendered, ArgTexts;
    FilteredParts(f, secrets);
    if !RewritesException(f) && Shows(ExcShown(f), s) {
      assert !CleanText(ExcShown(f), secrets);
    } else {
      var i :| 0 <= i < |ArgTexts(f.args)| && Shows(ArgTexts(f.args)[i], s);
      assert !CleanText(ArgTexts(f.args)[i], secrets);
    }
  }

  ghost predicate Shows(x: Rendering, s: string) {
    x.Some? && Occurs(x.value, s)
  }

  /** The string can be read in the message, an argument or the exception. */
  ghost predicate InSomePart(f: Fields, s: string) {
    || Shows(f.msg, s) || Shows(ExcShown(f), s)
    || exists i :: 0 <= i < |ArgTexts(f.args)| && Shows(ArgTexts(f.args)[i], s)
  }

  lemma HiddenInParts(f: Fields, secrets: seq<string>, s: string)
    requires PartsHide(f, secrets) && s in secrets
    ensures !InSomePart(f, s)
  {
    hide Occurs, ArgTexts;
    forall i | 0 <= i < |ArgTexts(f.args)| ensures !Shows(ArgTexts(f.args)[i], s) {
      assert CleanText(ArgTexts(f.args)[i], secrets);
    }
  }

  /** One argument that cannot be rendered, in a tuple or a dictionary, leaves every other
      argument and the exception as they were; so does a message that cannot be. */
  lemma OneBadArgumentLeaksTheRest(f: Fields, secrets: seq<string>, i: nat, s: string)
    requires s in secrets && StopsEarly(f)
    requires (i < |ArgTexts(f.args)| && Shows(ArgTexts(f.args)[i], s)) || Shows(ExcShown(f), s)
    ensures !Hides(Filtered(f, secrets), secrets)
  {
    hide Scrubbed, Filtered, Occurs, Hides, ArgTexts;
    LeftAloneLeaks(f, secrets, s);
  }

  lemma EmptyIsClean()
    ensures forall text :: Clean(text, [])
  {
  }

  /** The comprehensions over the arguments: None when some value cannot be rendered. */
  method ScrubEach(items: seq<Value>, secrets: seq<string>) returns (r: Option<seq<Value>>)
    ensures r.Some? <==> AllRender(items)
    ensures r.Some? ==> r.value == ScrubbedAll(items, secrets)
  {
    var out := [];
    for i := 0 to |items|
      invariant |out| == i
      invariant forall k :: 0 <= k < i ==> items[k].text.Some? && out[k] == ScrubbedValue(items[k], secrets)
    {
      if items[i].text.None? {
        return None;
      }
      var text := Scrub(items[i].text.value, secrets);
      out := out + [OfText(text)];
    }
    return Some(out);
  }

  class LogRecord {
    var msg: Rendering
    var args: Args
    var exc: Option<Rendering>
    var excText: Option<string>

    constructor (f: Fields)
      ensures Contents() == f
    {
      msg, args, exc, excText := f.msg, f.args, f.exc, f.excText;
    }

    ghost function Contents(): Fields
      reads this
    {
      Fields(msg, args, exc, excText)
    }
  }

  /** `SecretRedactingFilter`. */
  class Filter {
    var cachedSecrets: seq<string>
    var cacheExpiresAt: Time
    /** What the provider said, and when, for the cached list. */
    ghost var cachedRaw: seq<Item>
    ghost var readAt: Time

    ghost predicate Valid()
      reads this
    {
      && Lists(cachedSecrets, Chosen(cachedRaw))
      && (cacheExpiresAt > 0.0 ==> cacheExpiresAt == readAt + SECRETS_TTL_SECS)
    }

    constructor ()
      ensures Valid() && cacheExpiresAt == 0.0
    {
      cachedSecrets, cacheExpiresAt, cachedRaw, readAt := [], 0.0, [], 0.0;
    }

    /** `_current_secrets`; `raw` is the provider's answer, None when it raises. The list
        is the provider's of less than five seconds ago, or empty when it just failed. */
    method CurrentSecrets(now: Time, raw: Option<seq<Item>>) returns (secrets: seq<string>)
      requires Valid() && now >= 0.0
      modifies this
      ensures Valid()
      ensures now < old(cacheExpiresAt) || raw.None? ==>
        cachedSecrets == old(cachedSecrets) && cacheExpiresAt == old(cacheExpiresAt)
        && cachedRaw == old(cachedRaw) && readAt == old(readAt)
      ensures now >= old(cacheExpiresAt) && raw.Some? ==>
        readAt == now && cachedRaw == raw.value && cacheExpiresAt == now + 5.0
      ensures now >= old(cacheExpiresAt) && raw.None? ==> secrets == []
      ensures now < old(cacheExpiresAt) || raw.Some? ==>
        && secrets == cachedSecrets && LongestFirst(secrets) && now - readAt < 5.0
        && forall s :: s in secrets <==> Str(s) in cachedRaw && |s| >= 8
    {
      ChosenFrom(cachedRaw);
      if now < cacheExpiresAt {
        return cachedSecrets;
      }
      if raw.None? {
        return [];
      }
      ChosenFrom(raw.value);
      secrets := SortLongest(Chosen(raw.value));
      cachedSecrets, cacheExpiresAt := secrets, now + SECRETS_TTL_SECS;
      cachedRaw, readAt := raw.value, now;
    }

    /** `filter`, which always lets the record through. */
    method Rewrite(record: LogRecord, secrets: seq<string>)
      modifies record
      ensures record.Contents() == Filtered(old(record.Contents()), secrets)
    {
      hide Scrubbed;
      if secrets == [] || record.msg.None? {
        return;
      }
      var msg := Scrub(record.msg.value, secrets);
      record.msg := Some(msg);
      match record.args {
        case Named(fields) =>
          var values := ScrubEach(Values(fields), secrets);
          if values.None? {
            return;
          }
          record.args := Named(seq(|fields|, i requires 0 <= i < |fields| => (fields[i].0, values.value[i])));
        case Positional(items) =>
          var values := ScrubEach(items, secrets);
          if values.None? {
            return;
          }
          record.args := Positional(values.value);
        case _ =>
      }
      if record.exc.Some? && record.exc.value.Some? {
        var text := Scrub(record.exc.value.value, secrets);
        record.excText := Some(text);
      }
    }

    /** A whole call: the secrets in force, then the record. With secrets the marker does
        not clash with, nothing the provider named within the last five seconds is left in
        the record or its line exactly as far as the parts left alone show none and none
        runs across parts of the line. */
    method Apply(record: LogRecord, now: Time, raw: Option<seq<Item>>)
      requires Valid() && now >= 0.0
      modifies this, record
      ensures Valid()
      ensures now >= old(cacheExpiresAt) && raw.Some? ==> cachedRaw == raw.value
      ensures now < old(cacheExpiresAt) ==> cachedRaw == old(cachedRaw)
      ensures now < old(cacheExpiresAt) || raw.Some? ==>
        && now - readAt < 5.0
        && (forall s :: Str(s) in cachedRaw && |s| >= 8 && Safe(cachedSecrets) && Rewritable(old(record.Contents())) ==>
              !InSomePart(record.Contents(), s))
        && (Rewritable(old(record.Contents())) && Safe(cachedSecrets) ==> PartsHide(record.Contents(), cachedSecrets))
        && (Safe(cachedSecrets) && cachedSecrets != [] ==>
              (Hides(record.Contents(), cachedSecrets) <==>
                LeftAloneIsClean(old(record.Contents()), cachedSecrets)
                && NoneAcross(old(record.Contents()), cachedSecrets)))
      ensures now >= old(cacheExpiresAt) && raw.None? ==> record.Contents() == old(record.Contents())
    {
      hide Filtered, Hides, PartsHide, Rewritable, Safe, LeftAloneIsClean, NoneAcross, InSomePart;
      ghost var f := record.Contents();
      var secrets := CurrentSecrets(now, raw);
      Rewrite(record, secrets);
      if Safe(secrets) {
        if Rewritable(f) {
          FilterHides(f, secrets);
          forall s | s in secrets ensures !InSomePart(record.Contents(), s) {
            HiddenInParts(record.Contents(), secrets, s);
          }
        }
        if secrets != [] {
          FilterHidesIff(f, secrets);
        }
      }
      NothingToHide(f);
    }
  }

  lemma NothingToHide(f: Fields)
    ensures Filtered(f, []) == f
  {
  }
}
