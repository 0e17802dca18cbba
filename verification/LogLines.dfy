/** Scrubbing a template and its arguments one by one: the line made of the results, as the
    line of the originals with its parts scrubbed. */
module LogLines {
  import opened Text
  import opened Redactor
  import opened RedactorPieces
  import opened RedactorCut
  import opened RedactorParts
  import opened LogRecords

  // ---- Scrubbed arguments ------------------------------------------------------------------

  function Values(fields: seq<(string, Value)>): (r: seq<Value>)
    ensures |r| == |fields| && forall i :: 0 <= i < |fields| ==> r[i] == fields[i].1
  {
    seq(|fields|, i requires 0 <= i < |fields| => fields[i].1)
  }

  predicate AllRender(items: seq<Value>) {
    forall i :: 0 <= i < |items| ==> items[i].text.Some?
  }

  function ScrubbedValue(v: Value, secrets: seq<string>): Value
    requires v.text.Some?
  {
    OfText(Scrubbed(v.text.value, secrets))
  }

  function ScrubbedAll(items: seq<Value>, secrets: seq<string>): (r: seq<Value>)
    requires AllRender(items)
    ensures |r| == |items| && forall i :: 0 <= i < |items| ==> r[i] == ScrubbedValue(items[i], secrets)
  {
    seq(|items|, i requires 0 <= i < |items| => ScrubbedValue(items[i], secrets))
  }

  /** The arguments the pass can rewrite: none, a dictionary or a tuple, of values that can
      be rendered. */
  predicate ArgsRender(args: Args) {
    match args
    case NoArgs => true
    case Named(fields) => AllRender(Values(fields))
    case Positional(items) => AllRender(items)
    case OtherArgs(_, _) => false
  }

  function ScrubbedArgs(args: Args, secrets: seq<string>): Args
    requires ArgsRender(args)
  {
    match args
    case NoArgs => NoArgs
    case Named(fields) =>
      var values := ScrubbedAll(Values(fields), secrets);
      Named(seq(|fields|, i requires 0 <= i < |fields| => (fields[i].0, values[i])))
    case Positional(items) => Positional(ScrubbedAll(items, secrets))
  }

  function AfterArgs(args: Args, secrets: seq<string>, rewritten: bool): Args
    requires rewritten ==> ArgsRender(args)
  {
    if rewritten then ScrubbedArgs(args, secrets) else args
  }

  lemma {:induction false} FieldAfter(fields: seq<(string, Value)>, after: seq<(string, Value)>, key: string,
                                      secrets: seq<string>)
    requires |after| == |fields|
    requires forall i :: 0 <= i < |fields| ==>
               fields[i].1.text.Some? && after[i] == (fields[i].0, ScrubbedValue(fields[i].1, secrets))
    ensures match FieldOf(fields, key)
            case None => FieldOf(after, key).None?
            case Some(v) => v.text.Some? && FieldOf(after, key) == Some(ScrubbedValue(v, secrets))
  {
    hide ScrubbedValue;
    if fields != [] && fields[0].0 != key {
      FieldAfter(fields[1..], after[1..], key, secrets);
    }
  }

  lemma LookupAfter(args: Args, key: Option<string>, k: nat, secrets: seq<string>)
    requires ArgsRender(args)
    ensures match Lookup(args, key, k)
            case None => Lookup(ScrubbedArgs(args, secrets), key, k).None?
            case Some(v) =>
              v.text.Some? && Lookup(ScrubbedArgs(args, secrets), key, k) == Some(ScrubbedValue(v, secrets))
  {
    hide ScrubbedValue;
    if args.Named? && key.Some? {
      var after := ScrubbedArgs(args, secrets).fields;
      forall i | 0 <= i < |args.fields|
        ensures args.fields[i].1.text.Some?
          && after[i] == (args.fields[i].0, ScrubbedValue(args.fields[i].1, secrets))
      {
        assert Values(args.fields)[i].text.Some?;
      }
      FieldAfter(args.fields, after, key.value, secrets);
    }
  }

  // ---- The parts of a line ---------------------------------------------------------------------

  /** What a hole shows, when the value has become its text or when it was left alone. */
  function HoleParts(v: Value, conv: string, rewritten: bool): Option<seq<Part>> {
    if !rewritten then
      if Convert(v, conv).None? then None else Some([Part(Convert(v, conv).value, false)])
    else if v.text.None? then None
    else if conv == "s" then Some([Part(v.text.value, true)])
    else if conv == "r" then Some([Part("'", false), Part(v.text.value, true), Part("'", false)])
    else None
  }

  function Join(a: Option<seq<Part>>, b: Option<seq<Part>>): Option<seq<Part>> {
    if a.None? || b.None? then None else Some(a.value + b.value)
  }

  /** The line of a template, before the pass; `literals` if the pass goes over the literal
      runs, `rewritten` if it goes over the arguments. */
  function LineParts(ts: seq<Token>, args: Args, k: nat, rewritten: bool, literals: bool): Option<seq<Part>>
    decreases |ts|
  {
    if ts == [] then if AllUsed(args, k) then Some([]) else None
    else
      match ts[0]
      case Lit(s) => Join(Some([Part(s, literals)]), LineParts(ts[1..], args, k, rewritten, literals))
      case Percent => Join(Some([Part("%", false)]), LineParts(ts[1..], args, k, rewritten, literals))
      case Hole(key, conv) =>
        var v := Lookup(args, key, k);
        if v.None? then None
        else Join(HoleParts(v.value, conv, rewritten), LineParts(ts[1..], args, k + 1, rewritten, literals))
  }

  function ScrubLit(t: Token, secrets: seq<string>): Token {
    if t.Lit? then Lit(Scrubbed(t.s, secrets)) else t
  }

  function ScrubLits(ts: seq<Token>, secrets: seq<string>): (r: seq<Token>)
    ensures |r| == |ts| && forall i :: 0 <= i < |ts| ==> r[i] == ScrubLit(ts[i], secrets)
  {
    seq(|ts|, i requires 0 <= i < |ts| => ScrubLit(ts[i], secrets))
  }

  lemma {:induction false} AfterAppend(a: seq<Part>, b: seq<Part>, secrets: seq<string>)
    ensures AfterPass(a + b, secrets) == AfterPass(a, secrets) + AfterPass(b, secrets)
  {
    hide Scrubbed;
    if a == [] {
      assert a + b == b;
      assert "" + AfterPass(b, secrets) == AfterPass(b, secrets);
    } else {
      AfterAppend(a[1..], b, secrets);
      assert (a + b)[1..] == a[1..] + b;
    }
  }

  lemma AfterOne(p: Part, secrets: seq<string>)
    ensures AfterPass([p], secrets) == if p.scrubbed then Scrubbed(p.text, secrets) else p.text
  {
    hide Scrubbed;
    var x := if p.scrubbed then Scrubbed(p.text, secrets) else p.text;
    assert x + "" == x;
  }

  lemma HoleAfter(v: Value, conv: string, secrets: seq<string>, rewritten: bool)
    requires rewritten ==> v.text.Some?
    ensures var w := if rewritten then ScrubbedValue(v, secrets) else v;
            var parts := HoleParts(v, conv, rewritten);
            && (Convert(w, conv).Some? <==> parts.Some?)
            && (parts.Some? ==> Convert(w, conv).value == AfterPass(parts.value, secrets))
  {
    hide Scrubbed;
    var parts := HoleParts(v, conv, rewritten);
    if parts.Some? {
      if |parts.value| == 1 {
        AfterOne(parts.value[0], secrets);
      } else {
        var q, p := Part("'", false), parts.value[1];
        AfterOne(p, secrets);
        AfterOne(q, secrets);
        AfterAppend([q], [p], secrets);
        AfterAppend([q] + [p], [q], secrets);
        assert [q] + [p] + [q] == parts.value;
      }
    }
  }

  lemma ConcatCons(x: string, xs: seq<string>)
    ensures Concat([x] + xs) == x + Concat(xs)
  {
    assert ([x] + xs)[1..] == xs;
  }

  /** What tokens and arguments render to after the pass is the line before it, with its
      parts scrubbed one by one. */
  lemma {:induction false} TextsAfter(ts: seq<Token>, args: Args, k: nat, secrets: seq<string>, rewritten: bool,
                                      literals: bool)
    requires rewritten ==> ArgsRender(args)
    ensures var xs := Texts(if literals then ScrubLits(ts, secrets) else ts, AfterArgs(args, secrets, rewritten), k);
            var parts := LineParts(ts, args, k, rewritten, literals);
            (xs.Some? <==> parts.Some?) && (xs.Some? ==> Concat(xs.value) == AfterPass(parts.value, secrets))
    decreases |ts|
  {
    hide Scrubbed, Concat, AfterPass, Convert, HoleParts, ScrubbedArgs, ScrubbedValue, Lookup, AllUsed;
    var us := if literals then ScrubLits(ts, secrets) else ts;
    var after := AfterArgs(args, secrets, rewritten);
    if ts == [] {
      AllUsedAfter(args, k, secrets, rewritten);
      NothingAfter(secrets);
    } else {
      assert us[1..] == if literals then ScrubLits(ts[1..], secrets) else ts[1..];
      match ts[0]
      case Lit(s) =>
        TextsAfter(ts[1..], args, k, secrets, rewritten, literals);
        AfterOne(Part(s, literals), secrets);
        StepAfter(us, after, k, ts, args, rewritten, literals, secrets, [Part(s, literals)]);
      case Percent =>
        TextsAfter(ts[1..], args, k, secrets, rewritten, literals);
        AfterOne(Part("%", false), secrets);
        StepAfter(us, after, k, ts, args, rewritten, literals, secrets, [Part("%", false)]);
      case Hole(key, conv) =>
        TextsAfter(ts[1..], args, k + 1, secrets, rewritten, literals);
        if rewritten {
          LookupAfter(args, key, k, secrets);
        }
        var v := Lookup(args, key, k);
        if v.Some? {
          HoleAfter(v.value, conv, secrets, rewritten);
          var parts := HoleParts(v.value, conv, rewritten);
          if parts.Some? {
            StepAfter(us, after, k, ts, args, rewritten, literals, secrets, parts.value);
          }
        }
    }
  }

  lemma AllUsedAfter(args: Args, k: nat, secrets: seq<string>, rewritten: bool)
    requires rewritten ==> ArgsRender(args)
    ensures AllUsed(AfterArgs(args, secrets, rewritten), k) <==> AllUsed(args, k)
  {
  }

  lemma NothingAfter(secrets: seq<string>)
    ensures Concat([]) == "" && AfterPass([], secrets) == ""
  {
  }

  /** One token, the rest being known. */
  lemma StepAfter(us: seq<Token>, after: Args, k: nat, ts: seq<Token>, args: Args, rewritten: bool, literals: bool,
                  secrets: seq<string>, head: seq<Part>)
    requires us != [] && ts != []
    requires var next := if ts[0].Hole? then k + 1 else k;
             var xs := Texts(us[1..], after, next);
             var parts := LineParts(ts[1..], args, next, rewritten, literals);
             && (xs.Some? <==> parts.Some?)
             && (xs.Some? ==> Concat(xs.value) == AfterPass(parts.value, secrets))
             && Texts(us, after, k) == Cons(AfterPass(head, secrets), xs)
             && LineParts(ts, args, k, rewritten, literals) == Join(Some(head), parts)
    ensures var xs := Texts(us, after, k);
            var parts := LineParts(ts, args, k, rewritten, literals);
            (xs.Some? <==> parts.Some?) && (xs.Some? ==> Concat(xs.value) == AfterPass(parts.value, secrets))
  {
    hide Texts, LineParts, AfterPass, Concat;
    var next := if ts[0].Hole? then k + 1 else k;
    var xs := Texts(us[1..], after, next);
    if xs.Some? {
      ConcatCons(AfterPass(head, secrets), xs.value);
      AfterAppend(head, LineParts(ts[1..], args, next, rewritten, literals).value, secrets);
    }
  }

  // ---- Scrubbing a template ------------------------------------------------------------------------

  /** Every secret in the template lies within one of its literal runs. */
  ghost predicate LiteralsHold(s: string, secrets: seq<string>)
    decreases |s|
  {
    if s == "" then true
    else if s[0] == '%' then
      Placeholder(s).Some? ==>
        var n := Placeholder(s).value.1;
        NoneStarts(s, secrets, n) && LiteralsHold(s[n..], secrets)
    else
      RunIsNonempty(s);
      NoneCrosses(s, secrets, RunEnd(s)) && LiteralsHold(s[RunEnd(s)..], secrets)
  }

  ghost predicate NoneStarts(s: string, secrets: seq<string>, n: nat) {
    forall p, j :: p in secrets && 0 <= j < n ==> !OccursAt(s, p, j)
  }

  lemma PercentDoesNotClash()
    ensures !Clash("%")
  {
    forall d | -1 < d < |MARK| ensures !Agrees("%", d) {
      assert MARK[d + 0] != "%"[0];
    }
  }

  lemma HasPercent(s: string)
    ensures Occurs(s, "%") <==> '%' in s
  {
    if '%' in s {
      var i :| 0 <= i < |s| && s[i] == '%';
      assert s[i..i + 1] == "%";
      assert OccursAt(s, "%", i);
    }
    if i :| OccursAt(s, "%", i) {
      assert s[i..i + 1][0] == '%';
    }
  }

  /** A scrub brings no per cent sign in. */
  lemma NoNewPercent(s: string, secrets: seq<string>)
    requires '%' !in s
    ensures '%' !in Scrubbed(s, secrets)
  {
    hide Clash;
    PercentDoesNotClash();
    HasPercent(s);
    HasPercent(Scrubbed(s, secrets));
    ScrubBringsNothing(s, secrets, "%");
  }

  /** Nor does it make a text empty. */
  lemma ScrubIsNonempty(s: string, secrets: seq<string>)
    requires s != "" && Safe(secrets)
    ensures Scrubbed(s, secrets) != ""
  {
    hide Clash, Scrubbed;
    match FirstPick(s, secrets)
    case None =>
      NoPick(s, secrets);
      CleanIsKept(s, secrets);
    case Some(Pick(p, i)) =>
      PickSplits(s, secrets, p, i);
  }

  lemma RunIs(run: string, rest: string)
    requires run != "" && '%' !in run && (rest != "" ==> rest[0] == '%')
    ensures RunEnd(run + rest) == |run|
  {
    var s := run + rest;
    if rest == "" {
      HasPercent(s);
    } else {
      assert s[|run|..|run| + 1] == "%";
      forall j | 0 <= j < |run| ensures !OccursAt(s, "%", j) {
        assert s[j] == run[j];
        Mismatch(s, "%", j, 0);
      }
      FirstIs(s, "%", |run|);
    }
  }

  lemma RunHasNone(s: string)
    ensures '%' !in s[..RunEnd(s)] && (RunEnd(s) < |s| ==> s[RunEnd(s)] == '%')
  {
    var n := RunEnd(s);
    if n < |s| {
      assert s[n..n + 1][0] == '%';
    }
    forall j | 0 <= j < n ensures s[j] != '%' {
      if s[j] == '%' {
        assert s[j..j + 1] == "%";
        assert OccursAt(s, "%", j);
      }
    }
  }

  lemma {:induction false} TokensOfRun(run: string, rest: string)
    requires run != "" && '%' !in run && (rest != "" ==> rest[0] == '%')
    ensures Tokens(run + rest) == Before(Lit(run), Tokens(rest))
  {
    RunIs(run, rest);
    assert (run + rest)[0] == run[0] && run[0] in run;
    assert (run + rest)[..|run|] == run && (run + rest)[|run|..] == rest;
  }

  lemma TokensOfPlaceholder(s: string, u: string)
    requires s != "" && s[0] == '%' && Placeholder(s).Some?
    ensures var n := Placeholder(s).value.1;
            Tokens(s[..n] + u) == Before(Placeholder(s).value.0, Tokens(u))
  {
    hide Placeholder;
    PlaceholderIn(s, u);
    var n := Placeholder(s).value.1;
    assert (s[..n] + u)[n..] == u;
  }

  lemma CleanStart(s: string, secrets: seq<string>, n: nat)
    requires Safe(secrets) && n <= |s| && NoneStarts(s, secrets, n)
    ensures Scrubbed(s, secrets) == s[..n] + Scrubbed(s[n..], secrets)
  {
    hide Clash, Scrubbed;
    assert s == s[..n] + s[n..];
    forall p, j | p in secrets && OccursAt(s, p, j) ensures j + |p| <= n || n <= j {
    }
    ScrubSeam(s[..n], s[n..], secrets);
    forall p | p in secrets ensures !Occurs(s[..n], p) {
      forall j ensures !OccursAt(s[..n], p, j) {
        if OccursAt(s[..n], p, j) {
          InPrefix(s, n, p, j);
        }
      }
    }
    CleanIsKept(s[..n], secrets);
  }

  /** When no secret touches a placeholder, scrubbing a template scrubs its literal runs and
      leaves its placeholders. */
  lemma {:induction false} TokensAfter(s: string, secrets: seq<string>)
    requires Safe(secrets) && LiteralsHold(s, secrets) && Tokens(s).Some?
    ensures Tokens(Scrubbed(s, secrets)) == Some(ScrubLits(Tokens(s).value, secrets))
    ensures s == "" ==> Scrubbed(s, secrets) == ""
    ensures s != "" && s[0] == '%' ==> Scrubbed(s, secrets) != "" && Scrubbed(s, secrets)[0] == '%'
    decreases |s|
  {
    hide Clash, Scrubbed, Placeholder, RunEnd, NoneCrosses, NoneStarts;
    if s == "" {
      ScrubNothing(secrets);
    } else if s[0] == '%' {
      var n := Placeholder(s).value.1;
      var rest := s[n..];
      PlaceholderIsToken(s);
      CleanStart(s, secrets, n);
      TokensAfter(rest, secrets);
      TokensOfPlaceholder(s, Scrubbed(rest, secrets));
      LitsCons(Placeholder(s).value.0, Tokens(rest).value, secrets);
    } else {
      RunIsNonempty(s);
      RunHasNone(s);
      var n := RunEnd(s);
      var run, rest := s[..n], s[n..];
      assert s == run + rest;
      ScrubSeam(run, rest, secrets);
      TokensAfter(rest, secrets);
      NoNewPercent(run, secrets);
      ScrubIsNonempty(run, secrets);
      TokensOfRun(Scrubbed(run, secrets), Scrubbed(rest, secrets));
      LitsCons(Lit(run), Tokens(rest).value, secrets);
    }
  }

  lemma PlaceholderIsToken(s: string)
    requires s != "" && s[0] == '%' && Placeholder(s).Some?
    ensures 2 <= Placeholder(s).value.1 <= |s| && !Placeholder(s).value.0.Lit?
  {
  }

  lemma LitsCons(t: Token, ts: seq<Token>, secrets: seq<string>)
    ensures ScrubLits([t] + ts, secrets) == [ScrubLit(t, secrets)] + ScrubLits(ts, secrets)
  {
    hide Scrubbed;
  }
}
