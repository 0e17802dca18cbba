/** Cutting a byte stream into event blocks at blank lines, however the network
    cuts it into chunks: the drain loop of the supervisor (`spawn_metrics_stream`)
    and the `split("\n\n")` loop of the browser (`streamOnce`). */
module SseSplit {
  import opened Text

  const BLANK_LINE := "\n\n"

  /** Complete events in order, each with its terminator, and the bytes kept
      for the next chunk. */
  datatype Split = Split(events: seq<string>, rest: string)

  function FindDoubleNewline(buf: string): (r: Option<nat>)
    ensures r.Some? ==> OccursAt(buf, BLANK_LINE, r.value)
    ensures forall j :: 0 <= j && (r.Some? ==> j < r.value) ==> !OccursAt(buf, BLANK_LINE, j)
  {
    FindFirst(buf, BLANK_LINE)
  }

  /** What the inner drain loop takes out of a buffer. */
  function Drain(buf: string): Split
    decreases |buf|
  {
    match FindDoubleNewline(buf)
    case None => Split([], buf)
    case Some(pos) =>
      var more := Drain(buf[pos + 2..]);
      Split([buf[..pos + 2]] + more.events, more.rest)
  }

  /** A block that ends at its first blank line. */
  ghost predicate IsEvent(e: string) {
    |e| >= 2 && FindDoubleNewline(e) == Some(|e| - 2)
  }

  /** The meaning of a split, with no reference to how it is computed. */
  ghost predicate IsSplitOf(input: string, split: Split) {
    && Concat(split.events) + split.rest == input
    && (forall i :: 0 <= i < |split.events| ==> IsEvent(split.events[i]))
    && FindDoubleNewline(split.rest) == None
  }

  lemma CutIsEvent(input: string, pos: nat)
    requires FindDoubleNewline(input) == Some(pos)
    ensures IsEvent(input[..pos + 2])
  {
    var e := input[..pos + 2];
    assert input == "" + e + input[pos + 2..];
    forall j | 0 <= j <= |e| - 2
      ensures OccursAt(e, BLANK_LINE, j) <==> OccursAt(input, BLANK_LINE, j)
    {
      OccursShift("", e, input[pos + 2..], BLANK_LINE, j);
    }
    FirstIs(e, BLANK_LINE, pos);
  }

  /** One turn of the drain loop. */
  lemma DrainStep(input: string)
    ensures FindDoubleNewline(input) == None ==> Drain(input) == Split([], input)
    ensures FindDoubleNewline(input).Some? ==>
      var pos := FindDoubleNewline(input).value;
      var more := Drain(input[pos + 2..]);
      Drain(input) == Split([input[..pos + 2]] + more.events, more.rest)
  {
    hide FindDoubleNewline;
  }

  lemma {:induction false} DrainIsSplit(input: string)
    ensures IsSplitOf(input, Drain(input))
    decreases |input|
  {
    hide Drain, FindDoubleNewline, Concat;
    DrainStep(input);
    match FindDoubleNewline(input)
    case None =>
      EmptySplit(input);
    case Some(pos) =>
      CutIsEvent(input, pos);
      DrainIsSplit(input[pos + 2..]);
      SplitCons(input[..pos + 2], input[pos + 2..], Drain(input[pos + 2..]));
      assert input[..pos + 2] + input[pos + 2..] == input;
  }

  lemma EmptySplit(input: string)
    requires FindDoubleNewline(input) == None
    ensures IsSplitOf(input, Split([], input))
  {
    hide FindDoubleNewline;
    assert Concat([]) + input == input;
  }

  lemma SplitCons(e: string, more: string, split: Split)
    requires IsEvent(e) && IsSplitOf(more, split)
    ensures IsSplitOf(e + more, Split([e] + split.events, split.rest))
  {
    hide FindDoubleNewline;
    var all := [e] + split.events;
    assert all[1..] == split.events;
    assert Concat(all) + split.rest == e + (Concat(split.events) + split.rest);
  }

  /** An event followed by anything is cut off first. */
  lemma EventComesFirst(e: string, more: string)
    requires IsEvent(e)
    ensures FindDoubleNewline(e + more) == Some(|e| - 2)
    ensures Drain(e + more) == Split([e] + Drain(more).events, Drain(more).rest)
  {
    hide Drain;
    forall j | 0 <= j <= |e| - 2
      ensures OccursAt(e, BLANK_LINE, j) <==> OccursAt(e + more, BLANK_LINE, j)
    {
      assert "" + e + more == e + more;
      OccursShift("", e, more, BLANK_LINE, j);
    }
    FirstIs(e + more, BLANK_LINE, |e| - 2);
    DrainStep(e + more);
    assert (e + more)[..|e|] == e && (e + more)[|e|..] == more;
  }

  /** There is exactly one split of a stream, and draining finds it. */
  lemma {:induction false} SplitIsUnique(input: string, split: Split)
    requires IsSplitOf(input, split)
    ensures split == Drain(input)
    decreases |split.events|
  {
    hide Drain, FindDoubleNewline;
    if split.events == [] {
      DrainStep(input);
      assert input == split.rest;
    } else {
      var e, more := split.events[0], Concat(split.events[1..]) + split.rest;
      assert input == e + more;
      SplitIsUnique(more, Split(split.events[1..], split.rest));
      EventComesFirst(e, more);
    }
  }

  ghost predicate DrainsInTwoSteps(a: string, b: string) {
    var first := Drain(a);
    var second := Drain(first.rest + b);
    Drain(a + b) == Split(first.events + second.events, second.rest)
  }

  lemma TwoStepsCons(e: string, more: string, b: string)
    requires IsEvent(e) && DrainsInTwoSteps(more, b)
    ensures DrainsInTwoSteps(e + more, b)
  {
    hide Drain, FindDoubleNewline;
    EventComesFirst(e, more);
    EventComesFirst(e, more + b);
    assert e + more + b == e + (more + b);
    var first := Drain(more);
    var second := Drain(first.rest + b);
    assert [e] + first.events + second.events == [e] + (first.events + second.events);
  }

  /** Draining early and draining late agree. */
  lemma {:induction false} DrainInTwoSteps(a: string, b: string)
    ensures DrainsInTwoSteps(a, b)
    decreases |a|
  {
    hide FindDoubleNewline, Drain;
    DrainStep(a);
    match FindDoubleNewline(a)
    case None =>
    case Some(pos) =>
      CutIsEvent(a, pos);
      DrainInTwoSteps(a[pos + 2..], b);
      TwoStepsCons(a[..pos + 2], a[pos + 2..], b);
      assert a[..pos + 2] + a[pos + 2..] == a;
  }

  /** JavaScript's `buf.split("\n\n")`. */
  function SplitBlocks(buf: string): (r: seq<string>)
    ensures |r| >= 1
    decreases |buf|
  {
    match FindDoubleNewline(buf)
    case None => [buf]
    case Some(pos) => [buf[..pos]] + SplitBlocks(buf[pos + 2..])
  }

  /** Events without their two terminating line feeds. */
  function Stripped(events: seq<string>): (r: seq<string>)
    requires forall i :: 0 <= i < |events| ==> |events[i]| >= 2
    ensures |r| == |events|
    ensures forall i :: 0 <= i < |r| ==> r[i] == events[i][..|events[i]| - 2]
  {
    seq(|events|, i requires 0 <= i < |events| => events[i][..|events[i]| - 2])
  }

  /** The browser's split and the supervisor's drain find the same blocks. */
  lemma {:induction false} BlocksAreStrippedEvents(buf: string)
    ensures forall i :: 0 <= i < |Drain(buf).events| ==> |Drain(buf).events[i]| >= 2
    ensures SplitBlocks(buf) == Stripped(Drain(buf).events) + [Drain(buf).rest]
    decreases |buf|
  {
    hide FindDoubleNewline, Drain;
    DrainStep(buf);
    match FindDoubleNewline(buf)
    case None =>
      assert Stripped([]) == [];
    case Some(pos) =>
      BlocksAreStrippedEvents(buf[pos + 2..]);
      var more := Drain(buf[pos + 2..]).events;
      assert buf[..pos + 2][..pos] == buf[..pos];
      assert Stripped([buf[..pos + 2]] + more) == [buf[..pos]] + Stripped(more);
  }
}
