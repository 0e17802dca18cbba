/** Log records, and how the formatter makes a line of one: `msg % args`. */
module LogRecords {
  import opened Text

  /** What `str` or `repr` makes of a value; None when it raises. */
  type Rendering = Option<string>

  /** A value as the formatter sees it: what `str` makes of it, and what other conversions
      do, such as "d", ".1f" or "r"; those not listed raise. */
  datatype Value = Value(text: Rendering, forms: map<string, string>)

  /** A text: it has a `repr`, and no conversion to a number. */
  function OfText(s: string): Value {
    Value(Some(s), map["r" := Quoted(s)])
  }

  function Quoted(s: string): string {
    "'" + s + "'"
  }

  datatype Args =
    | NoArgs
    | Named(fields: seq<(string, Value)>)
    | Positional(items: seq<Value>)
    | OtherArgs(value: Value, subscriptable: bool)

  datatype Fields = Fields(msg: Rendering, args: Args, exc: Option<Rendering>, excText: Option<string>)

  // ---- Templates -----------------------------------------------------------------------------

  datatype Token = Lit(s: string) | Percent | Hole(key: Option<string>, conv: string)

  const FLAGS := "#0- +.123456789"
  const CONVERSIONS := "sradiouxXeEfFgGc"

  function FlagsEnd(s: string, i: nat): (r: nat)
    requires i <= |s|
    ensures i <= r <= |s|
    decreases |s| - i
  {
    if i < |s| && s[i] in FLAGS then FlagsEnd(s, i + 1) else i
  }

  /** What the placeholder at the start of a text is, and its length. */
  function Placeholder(s: string): (r: Option<(Token, nat)>)
    requires s != "" && s[0] == '%'
    ensures r.Some? ==> 2 <= r.value.1 <= |s|
  {
    if |s| >= 2 && s[1] == '%' then Some((Percent, 2))
    else if |s| >= 2 && s[1] == '(' then
      match FindFrom(s, ")", 2)
      case None => None
      case Some(k) => Conversion(s, Some(s[2..k]), k + 1)
    else Conversion(s, None, 1)
  }

  function Conversion(s: string, key: Option<string>, from: nat): (r: Option<(Token, nat)>)
    requires 1 <= from <= |s|
    ensures r.Some? ==> from < r.value.1 <= |s|
  {
    var e := FlagsEnd(s, from);
    if e < |s| && s[e] in CONVERSIONS then Some((Hole(key, s[from..e + 1]), e + 1)) else None
  }

  /** The length of the run before the next per cent sign. */
  function RunEnd(s: string): (r: nat)
    ensures r <= |s|
  {
    match FindFirst(s, "%")
    case None => |s|
    case Some(i) => i
  }

  lemma RunIsNonempty(s: string)
    requires s != "" && s[0] != '%'
    ensures RunEnd(s) > 0
  {
  }

  /** The template as literal runs and placeholders; None when it cannot be read. */
  function Tokens(s: string): Option<seq<Token>>
    decreases |s|
  {
    if s == "" then Some([])
    else if s[0] == '%' then
      match Placeholder(s)
      case None => None
      case Some((t, n)) => Before(t, Tokens(s[n..]))
    else
      RunIsNonempty(s);
      Before(Lit(s[..RunEnd(s)]), Tokens(s[RunEnd(s)..]))
  }

  function Before(t: Token, ts: Option<seq<Token>>): Option<seq<Token>> {
    if ts.None? then None else Some([t] + ts.value)
  }

  // ---- Lines -----------------------------------------------------------------------------------

  function FieldOf(fields: seq<(string, Value)>, key: string): Option<Value> {
    if fields == [] then None
    else if fields[0].0 == key then Some(fields[0].1)
    else FieldOf(fields[1..], key)
  }

  /** The value of a hole; `k` is the number of holes before it. */
  function Lookup(args: Args, key: Option<string>, k: nat): Option<Value> {
    match args
    case NoArgs => None
    case Named(fields) => if key.Some? then FieldOf(fields, key.value) else None
    case Positional(items) => if key.None? && k < |items| then Some(items[k]) else None
    case OtherArgs(v, _) => if key.None? && k == 0 then Some(v) else None
  }

  /** Too many positional arguments raise. */
  predicate AllUsed(args: Args, k: nat) {
    match args
    case Positional(items) => k == |items|
    case OtherArgs(_, subscriptable) => k == 1 || subscriptable
    case _ => true
  }

  function Convert(v: Value, conv: string): Rendering {
    if conv == "s" then v.text else if conv in v.forms then Some(v.forms[conv]) else None
  }

  function Cons(x: string, xs: Option<seq<string>>): Option<seq<string>> {
    if xs.None? then None else Some([x] + xs.value)
  }

  /** The texts of the tokens in order, from a hole number on. */
  function Texts(ts: seq<Token>, args: Args, k: nat): Option<seq<string>>
    decreases |ts|
  {
    if ts == [] then if AllUsed(args, k) then Some([]) else None
    else
      match ts[0]
      case Lit(s) => Cons(s, Texts(ts[1..], args, k))
      case Percent => Cons("%", Texts(ts[1..], args, k))
      case Hole(key, conv) =>
        var v := Lookup(args, key, k);
        if v.None? || Convert(v.value, conv).None? then None
        else Cons(Convert(v.value, conv).value, Texts(ts[1..], args, k + 1))
  }

  /** Arguments that count as false: the message is the line. */
  predicate NoneGiven(args: Args) {
    args == NoArgs || args == Named([]) || args == Positional([])
  }

  /** `getMessage`; None when it raises. */
  function Rendered(f: Fields): Rendering {
    if f.msg.None? then None
    else if NoneGiven(f.args) then f.msg
    else
      match Tokens(f.msg.value)
      case None => None
      case Some(ts) =>
        var xs := Texts(ts, f.args, 0);
        if xs.None? then None else Some(Concat(xs.value))
  }

  // ---- Placeholders read from a beginning ------------------------------------------------------------

  lemma {:induction false} FlagsEndIn(s: string, i: nat, n: nat, u: string)
    requires i <= |s| && FlagsEnd(s, i) < n <= |s|
    ensures FlagsEnd(s[..n] + u, i) == FlagsEnd(s, i)
    decreases |s| - i
  {
    var t := s[..n] + u;
    assert t[i] == s[i];
    if s[i] in FLAGS {
      FlagsEndIn(s, i + 1, n, u);
    }
  }

  lemma ConversionIn(s: string, key: Option<string>, from: nat, u: string)
    requires 1 <= from <= |s| && Conversion(s, key, from).Some?
    ensures var n := Conversion(s, key, from).value.1;
            from <= |s[..n] + u| && Conversion(s[..n] + u, key, from) == Conversion(s, key, from)
  {
    var n := Conversion(s, key, from).value.1;
    var t := s[..n] + u;
    FlagsEndIn(s, from, n, u);
    assert t[n - 1] == s[n - 1];
    assert t[from..n] == s[from..n];
  }

  /** What follows a placeholder does not matter to it. */
  lemma PlaceholderIn(s: string, u: string)
    requires s != "" && s[0] == '%' && Placeholder(s).Some?
    ensures var t := s[..Placeholder(s).value.1] + u;
            t[0] == '%' && Placeholder(t) == Placeholder(s)
  {
    hide FlagsEnd, Conversion;
    var n := Placeholder(s).value.1;
    var t := s[..n] + u;
    assert t[0] == s[0] && t[1] == s[1];
    if s[1] == '%' {
    } else if s[1] == '(' {
      var k := FindFrom(s, ")", 2).value;
      ConversionIn(s, Some(s[2..k]), k + 1, u);
      KeyIn(s, n, u, k);
    } else {
      ConversionIn(s, None, 1, u);
    }
  }

  lemma KeyIn(s: string, n: nat, u: string, k: nat)
    requires 2 <= |s| && FindFrom(s, ")", 2) == Some(k) && k < n <= |s|
    ensures FindFrom(s[..n] + u, ")", 2) == Some(k) && (s[..n] + u)[2..k] == s[2..k]
  {
    var t := s[..n] + u;
    assert t[2..k] == s[2..k];
    assert t[k..k + 1] == s[k..k + 1];
    forall j | 2 <= j < k ensures !OccursAt(t, ")", j) {
      assert t[j..j + 1] == s[j..j + 1];
      assert !OccursAt(s, ")", j);
    }
    assert OccursAt(t, ")", k);
  }

  // ---- How values are shown ---------------------------------------------------------------------------

  lemma ConcatOne(x: string)
    ensures Concat([x]) == x
  {
    assert x + "" == x;
  }

  lemma OneHole(key: Option<string>, args: Args, v: Value)
    requires Lookup(args, key, 0) == Some(v) && AllUsed(args, if key.None? then 1 else 0)
    requires key.Some? ==> AllUsed(args, 1)
    ensures Texts([Hole(key, "s")], args, 0) == if v.text.None? then None else Some([v.text.value])
  {
    assert [Hole(key, "s")][1..] == [];
    assert Texts([], args, 1) == Some([]);
    if v.text.Some? {
      assert [v.text.value] + [] == [v.text.value];
    }
  }

  lemma HoleTokens()
    ensures Tokens("%s") == Some([Hole(None, "s")])
    ensures Tokens("%(k)s") == Some([Hole(Some("k"), "s")])
  {
    assert "%s"[1..2] == "s" && FlagsEnd("%s", 1) == 1;
    assert "%s"[2..] == "" && Tokens("") == Some([]);
    assert [Hole(None, "s")] + [] == [Hole(None, "s")];
    var s := "%(k)s";
    assert s[3..4] == ")" && s[2..3] == "k" && s[4..5] == "s";
    assert OccursAt(s, ")", 3) && !OccursAt(s, ")", 2);
    assert FindFrom(s, ")", 2) == Some(3);
    assert FlagsEnd(s, 4) == 4;
    assert s[5..] == "";
    assert [Hole(Some("k"), "s")] + [] == [Hole(Some("k"), "s")];
  }

  /** A value shows as its text: as the only argument of a tuple, under its key in a
      dictionary, and as an argument that is neither. */
  lemma ValueShows(v: Value, subscriptable: bool)
    ensures Rendered(Fields(Some("%s"), Positional([v]), None, None)) == v.text
    ensures Rendered(Fields(Some("%(k)s"), Named([("k", v)]), None, None)) == v.text
    ensures Rendered(Fields(Some("%s"), OtherArgs(v, subscriptable), None, None)) == v.text
  {
    hide Tokens, Texts, Concat;
    HoleTokens();
    OneHole(None, Positional([v]), v);
    OneHole(Some("k"), Named([("k", v)]), v);
    OneHole(None, OtherArgs(v, subscriptable), v);
    if v.text.Some? {
      ConcatOne(v.text.value);
    }
  }

  /** One value too many raises. */
  lemma TooManyRaise(v: Value, w: Value)
    ensures Rendered(Fields(Some("%s"), Positional([v, w]), None, None)) == None
  {
    hide Tokens;
    HoleTokens();
    assert [Hole(None, "s")][1..] == [];
  }
}
