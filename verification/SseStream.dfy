/** Whole streams: the two consumers, and what they recover from what the
    producers print, for every way the network may cut the text into chunks. */
module SseStream {
  import opened Text
  import opened SseSplit
  import opened SseFields

  /** One item of the response stream: bytes, or a transport error. */
  datatype Chunk = Bytes(data: string) | Broken

  /** Everything received before the first transport error. */
  function Received(chunks: seq<Chunk>): string {
    if chunks == [] || chunks[0].Broken? then ""
    else chunks[0].data + Received(chunks[1..])
  }

  function DataOfChunks(chunks: seq<Chunk>): (r: seq<string>)
    requires forall i :: 0 <= i < |chunks| ==> chunks[i].Bytes?
    ensures |r| == |chunks| && forall i :: 0 <= i < |r| ==> r[i] == chunks[i].data
  {
    seq(|chunks|, i requires 0 <= i < |chunks| => chunks[i].data)
  }

  /** That is all chunks up to the first error, one after the other. */
  lemma {:induction false} ReceivedIs(chunks: seq<Chunk>, k: nat)
    requires k <= |chunks| && (forall i :: 0 <= i < k ==> chunks[i].Bytes?)
    requires k < |chunks| ==> chunks[k].Broken?
    ensures Received(chunks) == Concat(DataOfChunks(chunks[..k]))
    decreases k
  {
    if k > 0 {
      ReceivedIs(chunks[1..], k - 1);
      assert chunks[1..][..k - 1] == chunks[..k][1..];
      assert DataOfChunks(chunks[..k])[1..] == DataOfChunks(chunks[1..][..k - 1]);
    }
  }

  // ---- The supervisor ----------------------------------------------------------

  /** The metrics carried by complete events, in order; a payload `parse` rejects
      is skipped. */
  function Metrics<M>(events: seq<string>, parse: string -> Option<M>): seq<M> {
    if events == [] then []
    else MetricOf(events[0], parse) + Metrics(events[1..], parse)
  }

  function MetricOf<M>(event: string, parse: string -> Option<M>): (r: seq<M>)
    ensures |r| <= 1
  {
    match DataOf(event)
    case None => []
    case Some(json) => match parse(json) case None => [] case Some(m) => [m]
  }

  lemma {:induction false} MetricsAppend<M>(a: seq<string>, b: seq<string>, parse: string -> Option<M>)
    ensures Metrics(a + b, parse) == Metrics(a, parse) + Metrics(b, parse)
  {
    hide MetricOf;
    if a == [] {
      assert a + b == b;
    } else {
      assert (a + b)[1..] == a[1..] + b;
      MetricsAppend(a[1..], b, parse);
    }
  }

  /** What a receiver that is dropped after `room` messages gets of a stream. */
  function Delivered<M>(input: string, parse: string -> Option<M>, room: nat): seq<M> {
    var all := Metrics(Drain(input).events, parse);
    if |all| <= room then all else all[..room]
  }

  /** A metric waiting while the channel is full and closed stays undelivered. */
  lemma DeliveredWhenFull<M>(input: string, parse: string -> Option<M>, room: nat,
                             taken: seq<string>, todo: seq<string>)
    requires Drain(input).events == taken + todo
    requires |Metrics(taken, parse)| >= room
    ensures Delivered(input, parse, room) == Metrics(taken, parse)[..room]
  {
    hide Drain, MetricOf;
    MetricsAppend(taken, todo, parse);
  }

  /** Taking the first event of a buffer off the events still to come. */
  lemma TakeFirst(buf: string, pos: nat, later: string)
    requires FindDoubleNewline(buf) == Some(pos)
    ensures Drain(buf + later).events == [buf[..pos + 2]] + Drain(buf[pos + 2..] + later).events
  {
    hide Drain, FindDoubleNewline;
    CutIsEvent(buf, pos);
    EventComesFirst(buf[..pos + 2], buf[pos + 2..] + later);
    assert buf + later == buf[..pos + 2] + (buf[pos + 2..] + later);
  }

  /** The task behind `spawn_metrics_stream`. The channel accepts `room`
      messages before its receiver is gone. */
  method ConsumeStream<M>(chunks: seq<Chunk>, parse: string -> Option<M>, room: nat)
    returns (sent: seq<M>)
    ensures sent == Delivered(Received(chunks), parse, room)
  {
    hide Drain, DataOf, FindDoubleNewline, Metrics, Delivered;
    var buf := "";
    sent := [];
    ghost var taken: seq<string> := [];
    ghost var todo := Drain(Received(chunks)).events;
    assert Metrics(taken, parse) == [] by { NoMetrics(parse); }
    assert chunks[0..] == chunks && "" + Received(chunks) == Received(chunks);
    for i := 0 to |chunks|
      invariant FindDoubleNewline(buf) == None
      invariant todo == Drain(buf + Received(chunks[i..])).events
      invariant Drain(Received(chunks)).events == taken + todo
      invariant sent == Metrics(taken, parse) && |sent| <= room
    {
      if chunks[i].Broken? {
        assert buf + Received(chunks[i..]) == buf;
        NothingLeft(Received(chunks), parse, room, taken, buf);
        return;
      }
      var chunk := chunks[i].data;
      ghost var later := Received(chunks[i + 1..]);
      assert chunks[i..][1..] == chunks[i + 1..];
      assert buf + Received(chunks[i..]) == buf + chunk + later;
      buf := buf + chunk;
      while true
        invariant todo == Drain(buf + later).events
        invariant Drain(Received(chunks)).events == taken + todo
        invariant sent == Metrics(taken, parse) && |sent| <= room
        decreases |buf|
      {
        var pos := FindDoubleNewline(buf);
        if pos == None {
          break;
        }
        TakeFirst(buf, pos.value, later);
        var event := buf[..pos.value + 2];
        buf := buf[pos.value + 2..];
        taken, todo := taken + [event], todo[1..];
        MetricsSnoc(taken, parse);
        var payload := ExtractData(event);
        if payload.Some? {
          var m := parse(payload.value);
          if m.Some? {
            if |sent| == room {
              // The receiver is gone: the send fails and the task ends.
              DeliveredWhenFull(Received(chunks), parse, room, taken, todo);
              return;
            }
            sent := sent + [m.value];
          }
        }
      }
    }
    assert chunks[|chunks|..] == [] && buf + "" == buf;
    NothingLeft(Received(chunks), parse, room, taken, buf);
  }

  lemma NoMetrics<M>(parse: string -> Option<M>)
    ensures Metrics([], parse) == []
    ensures FindDoubleNewline("") == None
  {
  }

  lemma NothingLeft<M>(input: string, parse: string -> Option<M>, room: nat,
                       taken: seq<string>, buf: string)
    requires Drain(input).events == taken + Drain(buf).events
    requires FindDoubleNewline(buf) == None
    requires |Metrics(taken, parse)| <= room
    ensures Delivered(input, parse, room) == Metrics(taken, parse)
  {
    hide FindDoubleNewline, Metrics;
    DrainStep(buf);
    assert taken + [] == taken;
  }

  lemma MetricsSnoc<M>(taken: seq<string>, parse: string -> Option<M>)
    requires taken != []
    ensures Metrics(taken, parse)
         == Metrics(taken[..|taken| - 1], parse) + MetricOf(taken[|taken| - 1], parse)
  {
    hide MetricOf;
    var last := [taken[|taken| - 1]];
    MetricsAppend(taken[..|taken| - 1], last, parse);
    assert taken == taken[..|taken| - 1] + last;
    assert last[1..] == [];
  }

  // ---- The browser ---------------------------------------------------------------

  datatype UiEvent<+T> = DoneEvent | Parsed(value: T)

  /** White space and line ends that JavaScript's `trim` removes. */
  predicate IsJsSpace(c: char) {
    || '\U{0009}' <= c <= '\U{000D}'
    || c == ' ' || c == '\U{00A0}' || c == '\U{1680}'
    || '\U{2000}' <= c <= '\U{200A}'
    || c == '\U{2028}' || c == '\U{2029}' || c == '\U{202F}'
    || c == '\U{205F}' || c == '\U{3000}' || c == '\U{FEFF}'
  }

  function TrimStart(s: string): string {
    if s != "" && IsJsSpace(s[0]) then TrimStart(s[1..]) else s
  }

  function TrimEnd(s: string): string {
    if s != "" && IsJsSpace(s[|s| - 1]) then TrimEnd(s[..|s| - 1]) else s
  }

  function Trim(s: string): string { TrimEnd(TrimStart(s)) }

  /** The first line of a block that is a data line. */
  function FirstDataLine(lines: seq<string>): (r: Option<string>)
    ensures r.Some? ==> |r.value| >= 5 && r.value[..5] == "data:"
  {
    if lines == [] then None
    else if StartsWith(lines[0], "data:") then Some(lines[0])
    else FirstDataLine(lines[1..])
  }

  function UiEventOf<T>(block: string, parse: string -> Option<T>): (r: seq<UiEvent<T>>)
    ensures |r| <= 1
  {
    match FirstDataLine(SplitLines(block))
    case None => []
    case Some(line) =>
      var payload := Trim(line[5..]);
      if payload == "" || payload == "[DONE]" then [DoneEvent]
      else match parse(payload) case None => [] case Some(v) => [Parsed(v)]
  }

  function UiEvents<T>(blocks: seq<string>, parse: string -> Option<T>): seq<UiEvent<T>> {
    if blocks == [] then []
    else UiEventOf(blocks[0], parse) + UiEvents(blocks[1..], parse)
  }

  lemma {:induction false} UiEventsAppend<T>(a: seq<string>, b: seq<string>, parse: string -> Option<T>)
    ensures UiEvents(a + b, parse) == UiEvents(a, parse) + UiEvents(b, parse)
  {
    hide UiEventOf;
    if a == [] {
      assert a + b == b;
    } else {
      assert (a + b)[1..] == a[1..] + b;
      UiEventsAppend(a[1..], b, parse);
    }
  }

  /** The blocks of a whole stream: the supervisor's events, terminators removed. */
  function Blocks(input: string): seq<string> {
    var all := SplitBlocks(input);
    all[..|all| - 1]
  }

  /** One more decoded chunk: the kept tail plus the chunk gives the same blocks. */
  lemma BlocksInTwoSteps(a: string, b: string)
    ensures Blocks(a + b) == Blocks(a) + Blocks(Drain(a).rest + b)
    ensures Drain(a + b).rest == Drain(Drain(a).rest + b).rest
  {
    hide Drain, SplitBlocks;
    var tail := Drain(a).rest + b;
    DrainInTwoSteps(a, b);
    BlocksAreStrippedEvents(a);
    BlocksAreStrippedEvents(a + b);
    BlocksAreStrippedEvents(tail);
    var ea, et := Drain(a).events, Drain(tail).events;
    assert Stripped(ea + et) == Stripped(ea) + Stripped(et);
    assert Blocks(a) == Stripped(ea);
    assert Blocks(tail) == Stripped(et);
    assert Blocks(a + b) == Stripped(ea + et);
  }

  /** The read loop of `streamOnce`, over the decoded chunks. */
  method StreamOnce<T>(chunks: seq<string>, parse: string -> Option<T>)
    returns (events: seq<UiEvent<T>>, buf: string)
    ensures events == UiEvents(Blocks(Concat(chunks)), parse)
    ensures buf == Drain(Concat(chunks)).rest
  {
    hide Drain, SplitBlocks, Blocks, UiEvents, FindDoubleNewline;
    buf := "";
    events := [];
    EmptyStream(parse);
    assert Concat(chunks[..0]) == "";
    for i := 0 to |chunks|
      invariant events == UiEvents(Blocks(Concat(chunks[..i])), parse)
      invariant buf == Drain(Concat(chunks[..i])).rest
    {
      ghost var before := Concat(chunks[..i]);
      assert chunks[..i + 1] == chunks[..i] + [chunks[i]];
      ConcatSnoc(chunks[..i], chunks[i]);
      BlocksInTwoSteps(before, chunks[i]);
      buf := buf + chunks[i];
      UiEventsAppend(Blocks(before), Blocks(buf), parse);
      PartsOf(buf);
      var parts := SplitBlocks(buf);
      ghost var earlier := events;
      buf, parts := parts[|parts| - 1], parts[..|parts| - 1];
      for j := 0 to |parts|
        invariant events == earlier + UiEvents(parts[..j], parse)
      {
        UiEventsSnoc(parts, j, parse);
        var line := FirstDataLine(SplitLines(parts[j]));
        if line == None {
          continue;
        }
        var payload := Trim(line.value[5..]);
        if payload == "" || payload == "[DONE]" {
          events := events + [DoneEvent];
          continue;
        }
        var parsed := parse(payload);
        if parsed.Some? {
          events := events + [Parsed(parsed.value)];
        }
      }
      assert parts[..|parts|] == parts;
    }
    assert chunks[..|chunks|] == chunks;
  }

  lemma EmptyStream<T>(parse: string -> Option<T>)
    ensures Blocks("") == [] && UiEvents([], parse) == [] && Drain("").rest == ""
  {
  }

  lemma PartsOf(buf: string)
    ensures SplitBlocks(buf) == Blocks(buf) + [Drain(buf).rest]
  {
    hide Drain, SplitBlocks;
    BlocksAreStrippedEvents(buf);
  }

  lemma UiEventsSnoc<T>(parts: seq<string>, j: nat, parse: string -> Option<T>)
    requires j < |parts|
    ensures UiEvents([], parse) == []
    ensures UiEvents(parts[..j + 1], parse) == UiEvents(parts[..j], parse) + UiEventOf(parts[j], parse)
  {
    hide UiEventOf;
    assert parts[..j + 1] == parts[..j] + [parts[j]];
    UiEventsAppend(parts[..j], [parts[j]], parse);
    assert [parts[j]][1..] == [];
  }

  // ---- What the producers print --------------------------------------------------

  /** The text of a stream of frames. */
  function StreamText(frames: seq<Frame>): string {
    if frames == [] then "" else Print(frames[0]) + StreamText(frames[1..])
  }

  function Prints(frames: seq<Frame>): (r: seq<string>)
    ensures |r| == |frames| && forall i :: 0 <= i < |r| ==> r[i] == Print(frames[i])
  {
    seq(|frames|, i requires 0 <= i < |frames| => Print(frames[i]))
  }

  /** Printed frames are the events that both splitters find. */
  lemma {:induction false} StreamSplitsIntoFrames(frames: seq<Frame>)
    requires forall i :: 0 <= i < |frames| ==> Printable(frames[i])
    ensures Drain(StreamText(frames)) == Split(Prints(frames), "")
  {
    hide Drain, FindDoubleNewline, Print;
    if frames == [] {
      NoMetrics((s: string) => Some(s));
      DrainStep("");
    } else {
      PrintedIsEvent(frames[0]);
      StreamSplitsIntoFrames(frames[1..]);
      EventComesFirst(Print(frames[0]), StreamText(frames[1..]));
      assert [Print(frames[0])] + Prints(frames[1..]) == Prints(frames);
    }
  }

  /** A payload can cross the wire when no line of it ends in CR. */
  ghost predicate Crosses(payload: string) {
    forall i :: 0 <= i < |SplitLines(payload)| ==> !EndsInCr(SplitLines(payload)[i])
  }

  /** Frame by frame: which payload each frame carries, if any. */
  ghost predicate Carries(frame: Frame, payload: Option<string>) {
    && Printable(frame)
    && match payload
       case None => Payloads(frame) == []
       case Some(p) => Payloads(frame) == SplitLines(p) && Crosses(p)
  }

  function Present(payloads: seq<Option<string>>): seq<string> {
    if payloads == [] then []
    else (match payloads[0] case None => [] case Some(p) => [p]) + Present(payloads[1..])
  }

  function ParseAll<M>(payloads: seq<string>, parse: string -> Option<M>): seq<M> {
    if payloads == [] then []
    else (match parse(payloads[0]) case None => [] case Some(m) => [m]) + ParseAll(payloads[1..], parse)
  }

  /** Print, cut anywhere, split and read is the identity on payloads: whatever the
      chunks, the supervisor parses the printed payloads in order, none lost, merged
      or altered, until its receiver is gone. */
  lemma {:induction false} StreamRoundTrip<M>(frames: seq<Frame>, payloads: seq<Option<string>>,
                                              chunks: seq<Chunk>, parse: string -> Option<M>, room: nat)
    requires |frames| == |payloads|
    requires forall i :: 0 <= i < |frames| ==> Carries(frames[i], payloads[i])
    requires Received(chunks) == StreamText(frames)
    ensures var all := ParseAll(Present(payloads), parse);
            Delivered(Received(chunks), parse, room) == if |all| <= room then all else all[..room]
  {
    hide Print, Drain, Carries;
    forall i | 0 <= i < |frames| ensures Printable(frames[i]) {
      CarriedMetric(frames[i], payloads[i], parse);
    }
    StreamSplitsIntoFrames(frames);
    FramesRead(frames, payloads, parse);
  }

  lemma CarriedMetric<M>(frame: Frame, payload: Option<string>, parse: string -> Option<M>)
    requires Carries(frame, payload)
    ensures Printable(frame)
    ensures MetricOf(Print(frame), parse) == ParseAll(Present([payload]), parse)
  {
    hide DataOf, Print;
    ReadPrinted(frame);
    assert Present([payload][1..]) == [];
    if payload.Some? {
      PayloadRoundTrip(frame, payload.value);
      assert Present([payload]) == [payload.value];
      assert ParseAll([payload.value][1..], parse) == [];
    }
  }

  lemma {:induction false} FramesRead<M>(frames: seq<Frame>, payloads: seq<Option<string>>,
                                         parse: string -> Option<M>)
    requires |frames| == |payloads|
    requires forall i :: 0 <= i < |frames| ==> Carries(frames[i], payloads[i])
    ensures Metrics(Prints(frames), parse) == ParseAll(Present(payloads), parse)
  {
    hide Print, Carries, MetricOf;
    if frames != [] {
      CarriedMetric(frames[0], payloads[0], parse);
      FramesRead(frames[1..], payloads[1..], parse);
      assert Prints(frames)[1..] == Prints(frames[1..]);
      assert Present([payloads[0]][1..]) == [];
      if payloads[0].Some? {
        assert Present(payloads)[1..] == Present(payloads[1..]);
        assert ParseAll([payloads[0].value][1..], parse) == [];
      } else {
        assert Present(payloads) == Present(payloads[1..]);
      }
    }
  }

  // ---- Feeds with CRLF line ends -------------------------------------------------------

  /** A feed yields an event if and only if it holds two line feeds in a row. */
  lemma EventsIff(input: string)
    ensures Drain(input).events != [] <==> Occurs(input, BLANK_LINE)
  {
    hide Drain;
    DrainStep(input);
  }

  /** The same frame printed with CR LF at the end of each line. */
  function PrintCrlf(frame: Frame): string {
    if frame == [] then "\r\n" else LineText(frame[0]) + "\r\n" + PrintCrlf(frame[1..])
  }

  function CrlfText(frames: seq<Frame>): string {
    if frames == [] then "" else PrintCrlf(frames[0]) + CrlfText(frames[1..])
  }

  /** Every LF made CR LF. */
  function WithCr(s: string): string {
    if s == "" then "" else (if s[0] == '\n' then "\r\n" else [s[0]]) + WithCr(s[1..])
  }

  lemma {:induction false} WithCrAppend(a: string, b: string)
    ensures WithCr(a + b) == WithCr(a) + WithCr(b)
  {
    if a == "" {
      assert a + b == b;
      assert "" + WithCr(b) == WithCr(b);
    } else {
      WithCrAppend(a[1..], b);
      assert (a + b)[1..] == a[1..] + b;
      var head := if a[0] == '\n' then "\r\n" else [a[0]];
      assert head + (WithCr(a[1..]) + WithCr(b)) == head + WithCr(a[1..]) + WithCr(b);
    }
  }

  lemma {:induction false} OneLineStays(line: string)
    requires OneLine(line)
    ensures WithCr(line) == line
  {
    if line != "" {
      assert line[0] in line;
      OneLineStays(line[1..]);
      assert [line[0]] + line[1..] == line;
    }
  }

  lemma {:induction false} PrintedWithCr(frame: Frame)
    requires AllOneLine(Texts(frame))
    ensures WithCr(Print(frame)) == PrintCrlf(frame)
  {
    hide WithCr, LineText;
    NewlineWithCr();
    if frame != [] {
      var line := LineText(frame[0]);
      assert OneLine(Texts(frame)[0]);
      forall i | 0 <= i < |frame| - 1 ensures OneLine(Texts(frame[1..])[i]) {
        assert Texts(frame[1..])[i] == Texts(frame)[i + 1];
      }
      PrintedWithCr(frame[1..]);
      OneLineStays(line);
      WithCrAppend(line + "\n", Print(frame[1..]));
      WithCrAppend(line, "\n");
    }
  }

  lemma NewlineWithCr()
    ensures WithCr("\n") == "\r\n" && WithCr("") == ""
  {
    assert WithCr("\n"[1..]) == "";
  }

  /** So the CR LF text of frames is their text with every LF made CR LF. */
  lemma {:induction false} CrlfTextIs(frames: seq<Frame>)
    requires forall i :: 0 <= i < |frames| ==> Printable(frames[i])
    ensures CrlfText(frames) == WithCr(StreamText(frames))
  {
    hide WithCr, Print, PrintCrlf;
    if frames == [] {
      NewlineWithCr();
    } else {
      CrlfTextIs(frames[1..]);
      PrintedWithCr(frames[0]);
      WithCrAppend(Print(frames[0]), StreamText(frames[1..]));
    }
  }

  predicate LfOnlyAfterCr(s: string) {
    forall i :: 0 <= i < |s| && s[i] == '\n' ==> i > 0 && s[i - 1] == '\r'
  }

  lemma LfOnlyAfterCrAppend(a: string, b: string)
    requires LfOnlyAfterCr(a) && LfOnlyAfterCr(b)
    ensures LfOnlyAfterCr(a + b)
  {
    var s := a + b;
    forall i | 0 <= i < |s| && s[i] == '\n' ensures i > 0 && s[i - 1] == '\r' {
      if i >= |a| {
        assert b[i - |a|] == '\n';
        assert s[i - 1] == b[i - |a| - 1];
      }
    }
  }

  lemma LineWithCrlf(line: string)
    requires OneLine(line)
    ensures LfOnlyAfterCr(line + "\r\n")
  {
    var s := line + "\r\n";
    assert forall i :: 0 <= i < |line| ==> s[i] == line[i] && line[i] in line;
  }

  lemma {:induction false} CrlfFrame(frame: Frame)
    requires AllOneLine(Texts(frame))
    ensures LfOnlyAfterCr(PrintCrlf(frame))
  {
    hide LfOnlyAfterCr, LineText;
    if frame == [] {
      LineWithCrlf("");
      assert "" + "\r\n" == "\r\n";
    } else {
      assert OneLine(Texts(frame)[0]);
      forall i | 0 <= i < |frame| - 1 ensures OneLine(Texts(frame[1..])[i]) {
        assert Texts(frame[1..])[i] == Texts(frame)[i + 1];
      }
      CrlfFrame(frame[1..]);
      LineWithCrlf(LineText(frame[0]));
      LfOnlyAfterCrAppend(LineText(frame[0]) + "\r\n", PrintCrlf(frame[1..]));
    }
  }

  lemma {:induction false} CrlfFrames(frames: seq<Frame>)
    requires forall i :: 0 <= i < |frames| ==> AllOneLine(Texts(frames[i]))
    ensures LfOnlyAfterCr(CrlfText(frames))
  {
    hide PrintCrlf;
    if frames != [] {
      CrlfFrame(frames[0]);
      CrlfFrames(frames[1..]);
      LfOnlyAfterCrAppend(PrintCrlf(frames[0]), CrlfText(frames[1..]));
    }
  }

  lemma NoBlankLine(s: string)
    requires LfOnlyAfterCr(s)
    ensures !Occurs(s, BLANK_LINE)
  {
    forall i ensures !OccursAt(s, BLANK_LINE, i) {
      if 0 <= i && i + 2 <= |s| {
        if s[i] == '\n' {
          Mismatch(s, BLANK_LINE, i, 1);
        } else {
          Mismatch(s, BLANK_LINE, i, 0);
        }
      }
    }
  }

  /** Any frames printed with CR LF line ends yield no event at all, however they are cut:
      the blank line between them is no blank line for the splitter. */
  lemma CrlfFeedYieldsNothing<M>(frames: seq<Frame>, chunks: seq<Chunk>, parse: string -> Option<M>, room: nat)
    requires forall i :: 0 <= i < |frames| ==> AllOneLine(Texts(frames[i]))
    requires Received(chunks) == CrlfText(frames)
    ensures Drain(Received(chunks)) == Split([], CrlfText(frames))
    ensures Delivered(Received(chunks), parse, room) == []
  {
    hide Drain, CrlfText;
    CrlfFrames(frames);
    NoBlankLine(CrlfText(frames));
    DrainStep(CrlfText(frames));
    NoMetrics(parse);
  }

  // ---- What the browser reads of a frame -------------------------------------------

  lemma {:induction false} FirstDataLineOfTexts(frame: Frame)
    requires Payloads(frame) != []
    ensures FirstDataLine(Texts(frame)) == Some("data: " + Payloads(frame)[0])
  {
    if frame[0].Data? {
      assert ("data: " + frame[0].value)[..5] == "data:";
    } else {
      var raw := LineText(frame[0]);
      assert !StartsWith(raw, "data:") by {
        assert raw[0] != "data:"[0];
        if StartsWith(raw, "data:") {
          StartsWithSameFirst(raw, "data:");
        }
      }
      assert Texts(frame)[1..] == Texts(frame[1..]);
      FirstDataLineOfTexts(frame[1..]);
    }
  }

  lemma {:induction false} PrintedBody(frame: Frame)
    requires frame != []
    ensures |Print(frame)| >= 2
    ensures Print(frame)[..|Print(frame)| - 2] == JoinLines(Texts(frame))
  {
    var line := LineText(frame[0]);
    if |frame| == 1 {
      assert Print(frame[1..]) == "\n";
      assert Print(frame) == line + "\n" + "\n";
    } else {
      PrintedBody(frame[1..]);
      assert Texts(frame)[1..] == Texts(frame[1..]);
      var more := Print(frame[1..]);
      assert (line + "\n" + more)[..|line| + 1 + |more| - 2] == line + "\n" + more[..|more| - 2];
    }
  }

  lemma {:induction false} TrimLeadingSpace(p: string)
    ensures Trim(" " + p) == Trim(p)
  {
    assert (" " + p)[1..] == p;
  }

  /** The browser reads the first data line of a printed frame, trimmed: the exact
      payload for one-line payloads without white space around them. */
  lemma BrowserReadsFrame<T>(frame: Frame, parse: string -> Option<T>)
    requires Printable(frame) && Payloads(frame) != []
    ensures |Print(frame)| >= 2
    ensures var payload := Trim(Payloads(frame)[0]);
            UiEventOf(Print(frame)[..|Print(frame)| - 2], parse) ==
            if payload == "" || payload == "[DONE]" then [DoneEvent]
            else match parse(payload) case None => [] case Some(v) => [Parsed(v)]
  {
    hide Print, SplitLines, JoinLines, FirstDataLine, Trim, Texts;
    PrintedBody(frame);
    SplitOfJoin(Texts(frame));
    FirstDataLineOfTexts(frame);
    var p := Payloads(frame)[0];
    assert ("data: " + p)[5..] == " " + p;
    TrimLeadingSpace(p);
  }

  // ---- The frames of the chat drivers --------------------------------------------

  datatype Kind = Delta | ToolCall | ToolResult | Done | Error

  function KindText(kind: Kind): string {
    match kind
    case Delta => "delta"
    case ToolCall => "tool_call"
    case ToolResult => "tool_result"
    case Done => "done"
    case Error => "error"
  }

  /** `_sse`, and the frame the resume endpoint replays. */
  function SseText(kind: Kind, payload: string, id: string): string {
    "event: " + KindText(kind) + "\ndata: " + payload + "\nid: " + id + "\n\n"
  }

  lemma PrintCons(line: FrameLine, frame: Frame)
    ensures Print([line] + frame) == LineText(line) + "\n" + Print(frame)
  {
    assert ([line] + frame)[1..] == frame;
  }

  lemma SseTextIsFrame(kind: Kind, payload: string, id: string)
    ensures SseText(kind, payload, id)
         == Print([Field(EventName, KindText(kind)), Data(payload), Field(IdName, id)])
  {
    hide Print, KindText;
    var name := KindText(kind);
    var e, d, i := Field(EventName, name), Data(payload), Field(IdName, id);
    PrintCons(i, []);
    PrintCons(d, [i]);
    PrintCons(e, [d, i]);
    assert [i] + [] == [i] && [d] + [i] == [d, i] && [e] + [d, i] == [e, d, i];
    EmptyPrint();
    Nest("event: ", name, "\n", "data: ", payload, "id: ", id);
    assert "\n" + "data: " == "\ndata: " && "\n" + "id: " == "\nid: " && "\n" + "\n" == "\n\n";
    assert NameText(EventName) + ": " == "event: " && NameText(IdName) + ": " == "id: ";
  }

  lemma Nest(e: string, k: string, nl: string, d: string, p: string, i: string, n: string)
    ensures e + k + (nl + d) + p + (nl + i) + n + (nl + nl)
         == (e + k) + nl + ((d + p) + nl + ((i + n) + nl + nl))
  {
  }

  lemma EmptyPrint()
    ensures Print([]) == "\n"
  {
  }

  predicate IsPySpace(c: char) {
    || '\U{0009}' <= c <= '\U{000D}'
    || '\U{001C}' <= c <= '\U{0020}'
    || c == '\U{0085}' || c == '\U{00A0}' || c == '\U{1680}'
    || '\U{2000}' <= c <= '\U{200A}'
    || c == '\U{2028}' || c == '\U{2029}' || c == '\U{202F}'
    || c == '\U{205F}' || c == '\U{3000}'
  }

  function PyStrip(s: string): string
    decreases |s|
  {
    if s != "" && IsPySpace(s[0]) then PyStrip(s[1..])
    else if s != "" && IsPySpace(s[|s| - 1]) then PyStrip(s[..|s| - 1])
    else s
  }

  function PyDrop(s: string, n: nat): string {
    if n <= |s| then s[n..] else ""
  }

  /** How `generate` reads its own frames to accumulate the reply: the event type
      and the first data line. */
  function ReadForAccumulation(chunk: string): Option<(string, string)> {
    match FindFirst(chunk, "\ndata: ")
    case None => None
    case Some(cut) =>
      if !StartsWith(chunk, "event: ") then None
      else Some((PyStrip(PyDrop(chunk[..cut], 7)), SplitLines(chunk[cut + 7..])[0]))
  }

  lemma FirstDataMark(head: string, tail: string)
    requires OneLine(head)
    ensures FindFirst(head + "\ndata: " + tail, "\ndata: ") == Some(|head|)
  {
    hide FindFirst;
    var chunk := head + "\ndata: " + tail;
    assert chunk[|head|..|head| + 7] == "\ndata: ";
    forall j | 0 <= j < |head| ensures !OccursAt(chunk, "\ndata: ", j) {
      assert chunk[j] == head[j] && head[j] in head;
      Mismatch(chunk, "\ndata: ", j, 0);
    }
    FirstIs(chunk, "\ndata: ", |head|);
  }

  /** The event types of the stream, which tell the kinds apart. */
  lemma KindTexts(a: Kind, b: Kind)
    ensures KindText(a) == KindText(b) <==> a == b
    ensures KindText(Delta) == "delta" && KindText(ToolCall) == "tool_call" && KindText(ToolResult) == "tool_result"
    ensures KindText(Done) == "done" && KindText(Error) == "error"
  {
    assert "tool_call"[5] != "tool_result"[5];
  }

  lemma KindTextShape(kind: Kind)
    ensures PyStrip(KindText(kind)) == KindText(kind)
    ensures OneLine("event: " + KindText(kind))
  {
  }

  lemma FirstPiece(payload: string, more: string)
    ensures SplitLines(payload + "\n" + more)[0] == SplitLines(payload)[0]
    ensures SplitLines(payload)[0] == payload <==> OneLine(payload)
  {
    SplitAround(payload, more);
    SplitPieces(payload);
    if OneLine(payload) {
      SplitOneLine(payload);
    }
  }

  /** The accumulator gets the event type and the first line of the payload, so it
      gets the frame back exactly when the payload is one line, as JSON is. */
  lemma AccumulatorReadsFrame(kind: Kind, payload: string, id: string)
    ensures ReadForAccumulation(SseText(kind, payload, id))
         == Some((KindText(kind), SplitLines(payload)[0]))
    ensures ReadForAccumulation(SseText(kind, payload, id)) == Some((KindText(kind), payload))
       <==> OneLine(payload)
  {
    hide FindFirst, SplitLines, KindText, PyStrip;
    var name := KindText(kind);
    var head := "event: " + name;
    var more := "id: " + id + "\n\n";
    var tail := payload + "\n" + more;
    var chunk := SseText(kind, payload, id);
    assert chunk == head + "\ndata: " + tail;
    KindTextShape(kind);
    FirstDataMark(head, tail);
    assert chunk[..7] == "event: ";
    assert chunk[..|head|] == head;
    assert head[7..] == name;
    assert chunk[|head| + 7..] == tail;
    FirstPiece(payload, more);
  }
}
