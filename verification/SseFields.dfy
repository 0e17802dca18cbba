/** The lines of one event: how producers print them and how the supervisor's
    `extract_data` reads them back (section 9.2.6 of the WHATWG HTML Living
    Standard, LF line ends). */
module SseFields {
  import opened Text
  import opened SseSplit

  datatype FieldName = EventName | IdName | RetryName

  datatype FrameLine =
    | Comment(text: string)
    | Field(name: FieldName, value: string)
    | Data(value: string)

  type Frame = seq<FrameLine>

  function NameText(name: FieldName): string {
    match name
    case EventName => "event"
    case IdName => "id"
    case RetryName => "retry"
  }

  function LineText(line: FrameLine): string {
    match line
    case Comment(text) => ":" + text
    case Field(name, value) => NameText(name) + ": " + value
    case Data(value) => "data: " + value
  }

  function Texts(frame: Frame): (r: seq<string>)
    ensures |r| == |frame| && forall i :: 0 <= i < |frame| ==> r[i] == LineText(frame[i])
  {
    seq(|frame|, i requires 0 <= i < |frame| => LineText(frame[i]))
  }

  /** Every line, then the blank line that ends the event. */
  function Print(frame: Frame): string {
    if frame == [] then "\n" else LineText(frame[0]) + "\n" + Print(frame[1..])
  }

  /** What a line-based printer can print: at least one line, no line feed inside. */
  ghost predicate Printable(frame: Frame) {
    frame != [] && AllOneLine(Texts(frame))
  }

  // ---- Printed frames are events -------------------------------------------

  /** Skipping a non-empty line does not skip a blank line. */
  lemma BlankLineAfter(line: string, rest: string)
    requires line != "" && OneLine(line)
    requires rest != "" && rest[0] != '\n'
    requires IsEvent(rest)
    ensures IsEvent(line + "\n" + rest)
  {
    hide FindDoubleNewline, FindFrom;
    var s := line + "\n" + rest;
    var at := |s| - 2;
    assert s == (line + "\n") + rest + "";
    forall j | 0 <= j <= at
      ensures OccursAt(s, BLANK_LINE, j) <==> j == at
    {
      if j < |line| {
        assert s[j] == line[j] && s[j] in line;
        Mismatch(s, BLANK_LINE, j, 0);
      } else if j == |line| {
        assert s[j + 1] == rest[0];
        Mismatch(s, BLANK_LINE, j, 1);
      } else {
        OccursShift(line + "\n", rest, "", BLANK_LINE, j);
        assert OccursAt(rest, BLANK_LINE, j - |line| - 1) <==> j - |line| - 1 == |rest| - 2;
      }
    }
    FirstBlank(s, at);
  }

  lemma FirstBlank(s: string, i: nat)
    requires OccursAt(s, BLANK_LINE, i)
    requires forall j :: 0 <= j < i ==> !OccursAt(s, BLANK_LINE, j)
    ensures FindDoubleNewline(s) == Some(i)
  {
  }

  lemma LastLineIsEvent(line: string)
    requires line != "" && OneLine(line)
    ensures IsEvent(line + "\n" + "\n")
  {
    hide FindDoubleNewline, FindFrom;
    var s := line + "\n" + "\n";
    assert OccursAt(s, BLANK_LINE, |line|);
    forall j | 0 <= j < |line| ensures !OccursAt(s, BLANK_LINE, j) {
      assert s[j] == line[j] && s[j] in line;
      Mismatch(s, BLANK_LINE, j, 0);
    }
    FirstBlank(s, |line|);
  }

  lemma LineTextShape(line: FrameLine)
    ensures LineText(line) != ""
    ensures LineText(line)[0] != '\n'
  {
  }

  lemma {:induction false} PrintedIsEvent(frame: Frame)
    requires Printable(frame)
    ensures IsEvent(Print(frame)) && Print(frame) != "" && Print(frame)[0] != '\n'
  {
    hide FindDoubleNewline;
    var line := LineText(frame[0]);
    LineTextShape(frame[0]);
    assert OneLine(Texts(frame)[0]);
    if |frame| == 1 {
      LastLineIsEvent(line);
      assert Print(frame[1..]) == "\n";
      assert Print(frame) == line + "\n" + "\n";
    } else {
      forall i | 0 <= i < |frame| - 1 ensures OneLine(Texts(frame[1..])[i]) {
        assert Texts(frame[1..])[i] == Texts(frame)[i + 1];
      }
      PrintedIsEvent(frame[1..]);
      BlankLineAfter(line, Print(frame[1..]));
    }
  }

  // ---- Reading one event -----------------------------------------------------

  predicate EndsInCr(line: string) {
    line != "" && line[|line| - 1] == '\r'
  }

  /** Rust's `strip_suffix('\r')`, or the line itself. */
  function StripCr(line: string): string {
    if EndsInCr(line) then line[..|line| - 1] else line
  }

  /** The value a raw line adds to the payload, if any. */
  function DataValue(raw: string): Option<string> {
    var line := StripCr(raw);
    if line == "" then None
    else if line[0] == ':' then None
    else if !StartsWith(line, "data:") then None
    else
      var rest := line[5..];
      Some(if StartsWith(rest, " ") then rest[1..] else rest)
  }

  /** A line without its line end's CR, if it has one. */
  predicate IsBody(raw: string, body: string) {
    raw == body + "\r" || (raw == body && !EndsInCr(raw))
  }

  /** Exactly which lines add what: the text after `data:`, without one leading space. */
  lemma LineReads(raw: string, v: string)
    ensures DataValue(raw) == Some(v) <==>
      exists body :: IsBody(raw, body) && (body == "data: " + v || (body == "data:" + v && !StartsWith(v, " ")))
  {
    var line := StripCr(raw);
    assert IsBody(raw, line) by {
      if EndsInCr(raw) {
        assert raw == raw[..|raw| - 1] + "\r";
      }
    }
    assert forall body :: IsBody(raw, body) ==> body == line;
    StartsData(v);
    if StartsWith(line, "data:") {
      var rest := line[5..];
      assert line == "data:" + rest;
      if StartsWith(rest, " ") {
        assert rest == " " + rest[1..];
        assert line == "data: " + rest[1..];
      }
      if line == "data: " + v {
        assert rest == " " + v;
        assert rest[..1] == " " && rest[1..] == v;
      }
      if line == "data:" + v {
        assert rest == v;
      }
    }
  }

  lemma StartsData(v: string)
    ensures StartsWith("data: " + v, "data:") && StartsWith("data:" + v, "data:")
  {
    assert ("data: " + v)[..5] == "data:" && ("data:" + v)[..5] == "data:";
  }

  function DataValues(lines: seq<string>): seq<string> {
    if lines == [] then []
    else
      var more := DataValues(lines[1..]);
      match DataValue(lines[0])
      case None => more
      case Some(v) => [v] + more
  }

  /** The joined `data:` payload of an event block. */
  function DataOf(event: string): Option<string> {
    var values := DataValues(SplitLines(event));
    if values == [] then None else Some(JoinLines(values))
  }

  lemma {:induction false} DataValuesSnoc(lines: seq<string>, line: string)
    ensures DataValues(lines + [line]) ==
            DataValues(lines) + match DataValue(line) case None => [] case Some(v) => [v]
  {
    if lines == [] {
      assert [line][1..] == [];
    } else {
      assert (lines + [line])[1..] == lines[1..] + [line];
      DataValuesSnoc(lines[1..], line);
    }
  }

  method ExtractData(event: string) returns (payload: Option<string>)
    ensures payload == DataOf(event)
  {
    var lines := SplitLines(event);
    var parts: seq<string> := [];
    for i := 0 to |lines|
      invariant parts == DataValues(lines[..i])
    {
      ghost var before := parts;
      var raw := lines[i];
      DataValuesSnoc(lines[..i], raw);
      assert lines[..i + 1] == lines[..i] + [raw];
      var line := StripCr(raw);
      if line == "" {
        continue;
      }
      if line[0] == ':' {
        continue;
      }
      if !StartsWith(line, "data:") {
        continue;
      }
      var rest := line[5..];
      var value := if StartsWith(rest, " ") then rest[1..] else rest;
      parts := parts + [value];
    }
    assert lines[..|lines|] == lines;
    payload := if parts == [] then None else Some(JoinLines(parts));
  }

  // ---- Reading what was printed ------------------------------------------------

  /** The values of the data lines, in order. */
  function Payloads(frame: Frame): seq<string> {
    if frame == [] then []
    else if frame[0].Data? then [frame[0].value] + Payloads(frame[1..])
    else Payloads(frame[1..])
  }

  function StripAll(values: seq<string>): (r: seq<string>)
    ensures |r| == |values| && forall i :: 0 <= i < |r| ==> r[i] == StripCr(values[i])
  {
    seq(|values|, i requires 0 <= i < |values| => StripCr(values[i]))
  }

  lemma DataLineValue(value: string)
    ensures DataValue(LineText(Data(value))) == Some(StripCr(value))
  {
    var raw := "data: " + value;
    var line := StripCr(raw);
    if value == "" {
      assert raw == "data: ";
      assert line == raw;
    } else {
      assert raw[|raw| - 1] == value[|value| - 1];
    }
    assert line == "data: " + StripCr(value);
    assert line[..5] == "data:";
    assert line[5..] == " " + StripCr(value);
    assert line[5..][..1] == " ";
    assert line[5..][1..] == StripCr(value);
  }

  lemma OtherLineValue(line: FrameLine)
    requires !line.Data?
    ensures DataValue(LineText(line)) == None
  {
    var raw := LineText(line);
    if line.Comment? {
      assert StripCr(raw)[0] == ':';
    } else {
      var name := NameText(line.name);
      assert raw == name + ": " + line.value;
      assert raw[|name|] == ':';
      assert raw[0] == name[0] && name[0] != 'd';
      assert StripCr(raw)[0] == name[0];
      assert "data:"[0] == 'd';
    }
  }

  lemma {:induction false} PrintedPieces(frame: Frame)
    requires AllOneLine(Texts(frame))
    ensures SplitLines(Print(frame)) == Texts(frame) + ["", ""]
  {
    if frame == [] {
      SplitAfterLine("", "");
      assert "" + "\n" + "" == "\n";
      assert Texts(frame) + ["", ""] == ["", ""];
    } else {
      assert OneLine(Texts(frame)[0]);
      forall i | 0 <= i < |frame| - 1 ensures OneLine(Texts(frame[1..])[i]) {
        assert Texts(frame[1..])[i] == Texts(frame)[i + 1];
      }
      PrintedPieces(frame[1..]);
      SplitAfterLine(LineText(frame[0]), Print(frame[1..]));
      assert Texts(frame) == [LineText(frame[0])] + Texts(frame[1..]);
    }
  }

  lemma BlankLinesHaveNoData()
    ensures DataValues(["", ""]) == []
  {
    assert DataValues(["", ""][1..]) == [];
  }

  lemma {:induction false} PrintedValues(frame: Frame)
    ensures DataValues(Texts(frame) + ["", ""]) == StripAll(Payloads(frame))
  {
    hide DataValue, StripCr, LineText;
    if frame == [] {
      BlankLinesHaveNoData();
      assert Texts(frame) + ["", ""] == ["", ""];
    } else {
      PrintedValues(frame[1..]);
      var lines := Texts(frame) + ["", ""];
      assert lines[1..] == Texts(frame[1..]) + ["", ""];
      if frame[0].Data? {
        DataLineValue(frame[0].value);
        assert StripAll(Payloads(frame)) == [StripCr(frame[0].value)] + StripAll(Payloads(frame[1..]));
      } else {
        OtherLineValue(frame[0]);
      }
    }
  }

  /** What the reader makes of any printed frame: the data lines, each without
      one trailing CR. */
  lemma ReadPrinted(frame: Frame)
    requires Printable(frame)
    ensures DataOf(Print(frame)) ==
            if Payloads(frame) == [] then None else Some(JoinLines(StripAll(Payloads(frame))))
  {
    PrintedPieces(frame);
    PrintedValues(frame);
  }

  /** Printing a payload as one data line per line of it, anywhere among comment
      and field lines, is undone by reading, exactly when no line ends in CR. */
  lemma PayloadRoundTrip(frame: Frame, payload: string)
    requires Printable(frame) && Payloads(frame) == SplitLines(payload)
    ensures DataOf(Print(frame)) == Some(payload)
       <==> (forall i :: 0 <= i < |SplitLines(payload)| ==> !EndsInCr(SplitLines(payload)[i]))
  {
    var values := Payloads(frame);
    ReadPrinted(frame);
    JoinOfSplit(payload);
    SplitPieces(payload);
    var read := StripAll(values);
    forall i | 0 <= i < |read| ensures OneLine(read[i]) {
      assert OneLine(values[i]);
      forall c | c in read[i] ensures c in values[i] {}
    }
    SplitOfJoin(read);
    SplitOfJoin(values);
    if JoinLines(read) == payload {
      assert read == values;
      forall i | 0 <= i < |values| ensures !EndsInCr(values[i]) {
        assert |read[i]| == |values[i]|;
      }
    }
    if forall i :: 0 <= i < |values| ==> !EndsInCr(values[i]) {
      assert read == values;
    }
  }
}
