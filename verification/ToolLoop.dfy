/** The agentic tool loop of the chat drivers: bounded rounds of one request each,
    tool calls executed between them, frames emitted along the way. */
module ToolLoop {
  import opened Text
  import opened DoomLoop
  import opened ToolAssembly

  datatype Message =
    | Plain(role: string, content: string)
    | SystemNote(note: Note)
    | AssistantCalls(content: string, calls: seq<Call>)
    | ToolResultFor(callId: string, content: string)

  datatype Frame =
    | FDelta(content: string)
    | FToolCall(name: string, args: Json)
    | FToolResult(name: string, result: string)
    | FDone
    | FError(message: string)

  /** One decoded chunk of the upstream stream. */
  datatype Delta = Delta(content: string, calls: seq<TcDelta>)

  /** The stream of one request; it may break off with an HTTP error. */
  datatype Reply = Reply(deltas: seq<Delta>, error: Option<string>)

  /** The world around the loop: replies by request number, tool results by call
      number, and the JSON parser. */
  datatype World = World(reply: nat -> Reply, tool: nat -> string, loads: string -> Option<Json>)

  datatype Status = Going | Answered | Broken | Crashed

  datatype Run = Run(conversation: seq<Message>, frames: seq<Frame>, requests: seq<seq<Message>>,
                     executed: nat, status: Status)

  // ---- Reading arguments --------------------------------------------------------------

  /** The arguments of a call for execution; unparsable text counts as no arguments. */
  function ArgsOf(w: World, arguments: string): Json {
    match w.loads(if arguments == "" then "{}" else arguments)
    case None => JObj(map[])
    case Some(v) => v
  }

  /** `"run_id" in args` followed by `args["run_id"]` raises TypeError on anything
      but an object or a list or string without it. */
  predicate ProbeRaises(args: Json) {
    match args
    case JObj(_) => false
    case JArr(items) => JStr("run_id") in items
    case JStr(s) => FindFirst(s, "run_id").Some?
    case _ => true
  }

  /** The arguments of a call for the doom-loop history. */
  function HistoryArgs(w: World, arguments: string): Json {
    match w.loads(if arguments == "" then "{}" else arguments)
    case None => JObj(map["_raw" := JStr(if arguments == "" then "{}" else arguments)])
    case Some(v) => if v.JObj? then v else JObj(map["_value" := v])
  }

  function HistoryOfCalls(w: World, calls: seq<Call>): seq<ToolCall> {
    if calls == [] then []
    else [DoomLoop.ToolCall(calls[0].name, HistoryArgs(w, calls[0].arguments))] + HistoryOfCalls(w, calls[1..])
  }

  /** `extract_history_from_messages`. */
  function History(w: World, messages: seq<Message>): seq<ToolCall> {
    if messages == [] then []
    else (if messages[0].AssistantCalls? then HistoryOfCalls(w, messages[0].calls) else [])
         + History(w, messages[1..])
  }

  // ---- One round --------------------------------------------------------------------

  function NoteMessages(w: World, conversation: seq<Message>): (r: seq<Message>)
    ensures |r| <= 1
  {
    match NoteFor(History(w, conversation), DEFAULT_WINDOW, DEFAULT_THRESHOLD)
    case None => []
    case Some(note) => [SystemNote(note)]
  }

  function Content(deltas: seq<Delta>): string {
    if deltas == [] then "" else deltas[0].content + Content(deltas[1..])
  }

  function ContentFrames(deltas: seq<Delta>): seq<Frame> {
    if deltas == [] then []
    else (if deltas[0].content != "" then [FDelta(deltas[0].content)] else []) + ContentFrames(deltas[1..])
  }

  function AllCalls(deltas: seq<Delta>): seq<TcDelta> {
    if deltas == [] then [] else deltas[0].calls + AllCalls(deltas[1..])
  }

  lemma StreamTurn(deltas: seq<Delta>)
    ensures deltas == [] ==> Content(deltas) == "" && ContentFrames(deltas) == [] && AllCalls(deltas) == []
    ensures deltas != [] ==>
      && Content(deltas) == deltas[0].content + Content(deltas[1..])
      && AllCalls(deltas) == deltas[0].calls + AllCalls(deltas[1..])
      && ContentFrames(deltas)
         == (if deltas[0].content != "" then [FDelta(deltas[0].content)] else []) + ContentFrames(deltas[1..])
  {
  }

  /** The calls a reply asks for. */
  function CallsOf(reply: Reply): seq<Call> { Assemble(AllCalls(reply.deltas)) }

  function Take500(s: string): string { if |s| <= 500 then s else s[..500] }

  /** Executing the calls of a round in order. */
  function Execute(w: World, s: Run, calls: seq<Call>): Run
    decreases |calls|
  {
    if calls == [] then s
    else
      var c := calls[0];
      var args := ArgsOf(w, c.arguments);
      if ProbeRaises(args) then s.(status := Crashed)
      else
        var result := w.tool(s.executed);
        Execute(w, s.(frames := s.frames + [FToolCall(c.name, args), FToolResult(c.name, Take500(result))],
                      conversation := s.conversation + [ToolResultFor(c.id, result)],
                      executed := s.executed + 1), calls[1..])
  }

  /** Sending a request and streaming the content of its reply. */
  function Ask(w: World, s: Run, reply: Reply): Run {
    var conversation := s.conversation + NoteMessages(w, s.conversation);
    s.(conversation := conversation, requests := s.requests + [conversation],
       frames := s.frames + ContentFrames(reply.deltas))
  }

  /** One request and what follows from its reply. */
  function Round(w: World, s: Run, reply: Reply): Run {
    var s1 := Ask(w, s, reply);
    var calls := CallsOf(reply);
    if reply.error.Some? then s1.(frames := s1.frames + [FError(reply.error.value)], status := Broken)
    else if calls == [] then s1.(status := Answered)
    else
      var asked := s1.conversation + [AssistantCalls(Content(reply.deltas), calls)];
      Execute(w, s1.(conversation := asked), calls)
  }

  /** The rounds from request `k` on. */
  function Rounds(w: World, s: Run, k: nat, maxIter: int): Run
    decreases maxIter - k
  {
    if k >= maxIter || s.status != Going then s
    else Rounds(w, Round(w, s, w.reply(k)), k + 1, maxIter)
  }

  /** `_run`: the loop, then `done` unless it broke off. */
  function Drive(w: World, messages: seq<Message>, maxIter: int): Run {
    var s := Rounds(w, Run(messages, [], [], 0, Going), 0, maxIter);
    if s.status == Going || s.status == Answered then s.(frames := s.frames + [FDone]) else s
  }

  // ---- The conversation stays well formed ---------------------------------------------

  /** Messages in which every call of every assistant message is answered by exactly
      one tool message, in order, before anything else. */
  ghost predicate Paired(ms: seq<Message>)
    decreases |ms|
  {
    if ms == [] then true
    else
      match ms[0]
      case SystemNote(_) => Paired(ms[1..])
      case AssistantCalls(_, calls) =>
        && calls != []
        && |ms| >= 1 + |calls|
        && AnswersOf(ms[1..1 + |calls|], calls)
        && Paired(ms[1 + |calls|..])
      case _ => false
  }

  lemma CutOfAppend<T>(a: seq<T>, b: seq<T>, n: nat)
    requires 1 <= n <= |a|
    ensures (a + b)[n..] == a[n..] + b && (a + b)[1..n] == a[1..n] && (a + b)[0] == a[0]
  {
  }

  lemma {:induction false} PairedAppend(a: seq<Message>, b: seq<Message>)
    requires Paired(a) && Paired(b)
    ensures Paired(a + b)
    decreases |a|
  {
    if a == [] {
      assert a + b == b;
    } else {
      var n := match a[0] case AssistantCalls(_, calls) => 1 + |calls| case _ => 1;
      hide AnswersOf;
      PairedAppend(a[n..], b);
      CutOfAppend(a, b, n);
    }
  }

  /** Frames in which every tool call is followed at once by its result, and nothing
      ends the stream. */
  ghost predicate Body(fs: seq<Frame>)
    decreases |fs|
  {
    if fs == [] then true
    else
      match fs[0]
      case FDelta(_) => Body(fs[1..])
      case FToolCall(name, _) =>
        |fs| >= 2 && fs[1].FToolResult? && fs[1].name == name && Body(fs[2..])
      case _ => false
  }

  lemma {:induction false} BodyAppend(a: seq<Frame>, b: seq<Frame>)
    requires Body(a) && Body(b)
    ensures Body(a + b)
    decreases |a|
  {
    if a == [] {
      assert a + b == b;
    } else {
      var n := if a[0].FToolCall? then 2 else 1;
      BodyAppend(a[n..], b);
      CutOfAppend(a, b, n);
      assert n == 2 ==> (a + b)[1] == a[1];
    }
  }

  lemma {:induction false} ContentFramesAreBody(deltas: seq<Delta>)
    ensures Body(ContentFrames(deltas))
  {
    if deltas != [] {
      ContentFramesAreBody(deltas[1..]);
      var fs := ContentFrames(deltas);
      if deltas[0].content != "" {
        assert fs[1..] == ContentFrames(deltas[1..]);
      } else {
        assert fs == ContentFrames(deltas[1..]);
      }
    }
  }

  /** The answers of a run of executed calls. */
  ghost predicate AnswersOf(ms: seq<Message>, calls: seq<Call>) {
    && |ms| == |calls|
    && forall i :: 0 <= i < |calls| ==> ms[i].ToolResultFor? && ms[i].callId == calls[i].id
  }

  /** What the arguments parse to; an empty text is taken for an empty object. */
  function Parsed(w: World, arguments: string): Option<Json> {
    w.loads(if arguments == "" then "{}" else arguments)
  }

  /** Arguments that are no JSON, an object, or a list or string without `run_id`. */
  ghost predicate CanProbe(w: World, arguments: string) {
    match Parsed(w, arguments)
    case None => true
    case Some(v) =>
      || v.JObj?
      || (v.JArr? && JStr("run_id") !in v.items)
      || (v.JStr? && !Occurs(v.s, "run_id"))
  }

  ghost predicate SafeCalls(w: World, calls: seq<Call>) {
    forall i :: 0 <= i < |calls| ==> CanProbe(w, calls[i].arguments)
  }

  lemma ProbesIff(w: World, arguments: string)
    ensures CanProbe(w, arguments) <==> !ProbeRaises(ArgsOf(w, arguments))
  {
  }

  /** Executing calls emits call and result pairs and appends their answers; it
      crashes exactly when the arguments of some call cannot be probed. */
  lemma {:induction false} ExecuteAnswers(w: World, s: Run, calls: seq<Call>)
    returns (answers: seq<Message>, pairs: seq<Frame>)
    requires s.status == Going
    ensures var t := Execute(w, s, calls);
            && t.conversation == s.conversation + answers && t.frames == s.frames + pairs
            && t.requests == s.requests && Body(pairs)
            && t.status == (if SafeCalls(w, calls) then Going else Crashed)
            && (SafeCalls(w, calls) ==> AnswersOf(answers, calls))
    decreases |calls|
  {
    hide ArgsOf, ProbeRaises, CanProbe;
    if calls == [] {
      answers, pairs := [], [];
      assert s.conversation + [] == s.conversation && s.frames + [] == s.frames;
    } else {
      var c := calls[0];
      var args := ArgsOf(w, c.arguments);
      ProbesIff(w, c.arguments);
      if ProbeRaises(args) {
        answers, pairs := [], [];
        assert s.conversation + [] == s.conversation && s.frames + [] == s.frames;
      } else {
        var result := w.tool(s.executed);
        var here, answer := [FToolCall(c.name, args), FToolResult(c.name, Take500(result))], [ToolResultFor(c.id, result)];
        var s1 := s.(frames := s.frames + here, conversation := s.conversation + answer, executed := s.executed + 1);
        answers, pairs := ExecuteAnswers(w, s1, calls[1..]);
        assert s.conversation + answer + answers == s.conversation + (answer + answers);
        assert s.frames + here + pairs == s.frames + (here + pairs);
        assert (here + pairs)[2..] == pairs;
        assert SafeCalls(w, calls) <==> SafeCalls(w, calls[1..]) by {
          assert forall i :: 0 <= i < |calls| - 1 ==> calls[1..][i] == calls[i + 1];
          assert forall i :: 1 <= i < |calls| ==> calls[i] == calls[1..][i - 1];
        }
        answers, pairs := answer + answers, here + pairs;
      }
    }
  }

  /** Call `i` of a reply gets the result of its own execution: whole in its answer, the
      first 500 characters in its frame, right behind the frame of the call. */
  ghost predicate ResultAt(w: World, s: Run, t: Run, call: Call, i: nat) {
    var m, f, result := |s.conversation| + i, |s.frames| + 2 * i, w.tool(s.executed + i);
    && m < |t.conversation| && f + 1 < |t.frames|
    && t.conversation[m] == ToolResultFor(call.id, result)
    && t.frames[f].FToolCall? && t.frames[f].name == call.name
    && (match Parsed(w, call.arguments) case Some(v) => t.frames[f].args == v case None => t.frames[f].args == JObj(map[]))
    && t.frames[f + 1] == FToolResult(call.name, if |result| < 500 then result else result[..500])
  }

  lemma ResultShift(w: World, s: Run, s1: Run, t: Run, call: Call, i: nat)
    requires s1.executed == s.executed + 1 && |s1.conversation| == |s.conversation| + 1
    requires |s1.frames| == |s.frames| + 2 && ResultAt(w, s1, t, call, i)
    ensures ResultAt(w, s, t, call, i + 1)
  {
    hide Parsed;
    assert s1.executed + i == s.executed + (i + 1);
  }

  lemma FirstResult(w: World, s: Run, s1: Run, t: Run, call: Call)
    requires var args, result := ArgsOf(w, call.arguments), w.tool(s.executed);
             && s1.conversation == s.conversation + [ToolResultFor(call.id, result)]
             && s1.frames == s.frames + [FToolCall(call.name, args), FToolResult(call.name, Take500(result))]
    requires s1.conversation <= t.conversation && s1.frames <= t.frames
    ensures ResultAt(w, s, t, call, 0)
    ensures s.conversation <= t.conversation && s.frames <= t.frames
  {
    assert t.conversation[|s.conversation|] == s1.conversation[|s.conversation|];
    assert t.frames[|s.frames|] == s1.frames[|s.frames|];
    assert t.frames[|s.frames| + 1] == s1.frames[|s.frames| + 1];
  }

  lemma {:induction false} ResultsMatchCalls(w: World, s: Run, calls: seq<Call>)
    requires s.status == Going && SafeCalls(w, calls)
    ensures var t := Execute(w, s, calls);
            && s.conversation <= t.conversation && |t.conversation| == |s.conversation| + |calls|
            && s.frames <= t.frames && |t.frames| == |s.frames| + 2 * |calls|
            && t.executed == s.executed + |calls|
            && forall i :: 0 <= i < |calls| ==> ResultAt(w, s, t, calls[i], i)
    decreases |calls|
  {
    hide ArgsOf, ProbeRaises, CanProbe, Take500, ResultAt;
    if calls != [] {
      var c := calls[0];
      var args, result := ArgsOf(w, c.arguments), w.tool(s.executed);
      var here := [FToolCall(c.name, args), FToolResult(c.name, Take500(result))];
      var s1 := s.(frames := s.frames + here, conversation := s.conversation + [ToolResultFor(c.id, result)],
                   executed := s.executed + 1);
      assert forall i :: 0 <= i < |calls| - 1 ==> calls[1..][i] == calls[i + 1];
      ProbesIff(w, c.arguments);
      ResultsMatchCalls(w, s1, calls[1..]);
      var t := Execute(w, s1, calls[1..]);
      FirstResult(w, s, s1, t, c);
      forall i | 0 < i < |calls| ensures ResultAt(w, s, t, calls[i], i) {
        assert ResultAt(w, s1, t, calls[1..][i - 1], i - 1);
        ResultShift(w, s, s1, t, calls[i], i - 1);
      }
    }
  }

  function Said(fs: seq<Frame>): string {
    if fs == [] then "" else (if fs[0].FDelta? then fs[0].content else "") + Said(fs[1..])
  }

  /** What was streamed to the client is what the assistant message says. */
  lemma {:induction false} StreamedIsSaid(deltas: seq<Delta>)
    ensures Said(ContentFrames(deltas)) == Content(deltas)
  {
    if deltas != [] {
      StreamedIsSaid(deltas[1..]);
      var fs := ContentFrames(deltas);
      if deltas[0].content != "" {
        assert fs[1..] == ContentFrames(deltas[1..]);
      } else {
        assert fs == ContentFrames(deltas[1..]);
      }
    }
  }

  // ---- What every run keeps -----------------------------------------------------------

  /** `r` is the caller's messages, then well-formed additions. */
  ghost predicate Extends(r: seq<Message>, messages: seq<Message>) {
    && messages <= r
    && Paired(r[|messages|..])
  }

  lemma ExtendsMore(r: seq<Message>, messages: seq<Message>, more: seq<Message>)
    requires Extends(r, messages) && Paired(more)
    ensures Extends(r + more, messages)
  {
    hide Paired;
    PairedAppend(r[|messages|..], more);
    assert (r + more)[|messages|..] == r[|messages|..] + more;
  }

  lemma {:induction false} HistoryAppend(w: World, a: seq<Message>, b: seq<Message>)
    ensures History(w, a + b) == History(w, a) + History(w, b)
  {
    hide HistoryOfCalls;
    if a == [] {
      assert a + b == b;
    } else {
      HistoryAppend(w, a[1..], b);
      assert (a + b)[1..] == a[1..] + b;
      var head := if a[0].AssistantCalls? then HistoryOfCalls(w, a[0].calls) else [];
      assert head + (History(w, a[1..]) + History(w, b)) == head + History(w, a[1..]) + History(w, b);
    }
  }

  /** A request ends in a doom-loop note exactly when the tool calls in it show the
      repetition the note reports. */
  ghost predicate Guarded(w: World, r: seq<Message>, messages: seq<Message>) {
    match NoteFor(History(w, r), 8, 3)
    case Some(note) => r != [] && r[|r| - 1] == SystemNote(note)
    case None => r == messages || (r != [] && !r[|r| - 1].SystemNote?)
  }

  ghost predicate Unnoted(c: seq<Message>, messages: seq<Message>) {
    c == messages || (c != [] && !c[|c| - 1].SystemNote?)
  }

  lemma NotedRequest(w: World, c: seq<Message>, messages: seq<Message>)
    requires Extends(c, messages) && Unnoted(c, messages)
    ensures Extends(c + NoteMessages(w, c), messages)
    ensures Guarded(w, c + NoteMessages(w, c), messages)
  {
    hide NoteFor, Extends;
    var more := NoteMessages(w, c);
    HistoryAppend(w, c, more);
    assert History(w, more) == [] by {
      if more != [] {
        assert more[1..] == [];
      }
    }
    assert History(w, c) + [] == History(w, c);
    assert Paired(more) by {
      if more != [] {
        assert more[1..] == [];
      }
    }
    ExtendsMore(c, messages, more);
    assert more == [] ==> c + more == c;
  }

  /** An assistant message with calls and their answers. */
  lemma BlockIsPaired(content: string, calls: seq<Call>, answers: seq<Message>)
    requires calls != [] && AnswersOf(answers, calls)
    ensures Paired([AssistantCalls(content, calls)] + answers)
  {
    var ms := [AssistantCalls(content, calls)] + answers;
    assert ms[1..1 + |calls|] == answers;
    assert ms[1 + |calls|..] == [];
  }

  /** The frames so far, by how the run stands. */
  ghost predicate FramesOk(fs: seq<Frame>, status: Status) {
    match status
    case Broken => fs != [] && fs[|fs| - 1].FError? && Body(fs[..|fs| - 1])
    case _ => Body(fs)
  }

  ghost predicate RequestsOk(w: World, messages: seq<Message>, requests: seq<seq<Message>>) {
    forall i :: 0 <= i < |requests| ==> Extends(requests[i], messages) && Guarded(w, requests[i], messages)
  }

  ghost predicate RunOk(w: World, messages: seq<Message>, s: Run) {
    && RequestsOk(w, messages, s.requests)
    && FramesOk(s.frames, s.status)
    && (s.status == Going ==> Extends(s.conversation, messages) && Unnoted(s.conversation, messages))
  }

  /** The reply asks for a call whose arguments cannot be probed. */
  ghost predicate Raises(w: World, reply: Reply) {
    reply.error == None && !SafeCalls(w, CallsOf(reply))
  }

  lemma AskIsOk(w: World, messages: seq<Message>, s: Run, reply: Reply)
    requires RunOk(w, messages, s) && s.status == Going
    ensures var s1 := Ask(w, s, reply);
            && RequestsOk(w, messages, s1.requests) && Body(s1.frames) && Extends(s1.conversation, messages)
            && |s1.requests| == |s.requests| + 1 && s1.status == Going
  {
    hide Extends, Guarded, Paired, Body, NoteMessages, ContentFrames;
    NotedRequest(w, s.conversation, messages);
    ContentFramesAreBody(reply.deltas);
    BodyAppend(s.frames, ContentFrames(reply.deltas));
  }

  lemma CallsAreOk(w: World, messages: seq<Message>, s1: Run, content: string, calls: seq<Call>)
    requires RequestsOk(w, messages, s1.requests) && Body(s1.frames) && Extends(s1.conversation, messages)
    requires s1.status == Going && calls != []
    ensures var t := Execute(w, s1.(conversation := s1.conversation + [AssistantCalls(content, calls)]), calls);
            && RunOk(w, messages, t)
            && t.requests == s1.requests
            && t.status == if SafeCalls(w, calls) then Going else Crashed
  {
    hide Extends, Guarded, Paired, Body, SafeCalls, Execute, RequestsOk;
    var block := [AssistantCalls(content, calls)];
    var s2 := s1.(conversation := s1.conversation + block);
    var answers, pairs := ExecuteAnswers(w, s2, calls);
    BodyAppend(s1.frames, pairs);
    if SafeCalls(w, calls) {
      BlockIsPaired(content, calls, answers);
      assert s1.conversation + block + answers == s1.conversation + (block + answers);
      ExtendsMore(s1.conversation, messages, block + answers);
      assert answers[|answers| - 1].ToolResultFor?;
      assert (s1.conversation + block + answers)[|s1.conversation| + |answers|] == answers[|answers| - 1];
    }
  }

  lemma RoundKeepsRunOk(w: World, messages: seq<Message>, s: Run, reply: Reply)
    requires RunOk(w, messages, s) && s.status == Going
    ensures RunOk(w, messages, Round(w, s, reply))
    ensures |Round(w, s, reply).requests| == |s.requests| + 1
    ensures Round(w, s, reply).status == Crashed <==> Raises(w, reply)
  {
    hide RequestsOk, Extends, Body, CallsOf, SafeCalls, Execute, Ask;
    AskIsOk(w, messages, s, reply);
    var s1, calls, t := Ask(w, s, reply), CallsOf(reply), Round(w, s, reply);
    if reply.error.Some? {
      assert t.frames[..|t.frames| - 1] == s1.frames;
    } else if calls == [] {
      NoCallsAreSafe(w);
    } else {
      CallsAreOk(w, messages, s1, Content(reply.deltas), calls);
    }
  }

  lemma NoCallsAreSafe(w: World)
    ensures SafeCalls(w, [])
  {
  }

  lemma {:induction false} RoundsKeepRunOk(w: World, messages: seq<Message>, s: Run, k: nat, maxIter: int)
    requires RunOk(w, messages, s) && |s.requests| == k && s.status == Going
    requires forall i :: 0 <= i < k ==> !Raises(w, w.reply(i))
    ensures var t := Rounds(w, s, k, maxIter);
            && RunOk(w, messages, t)
            && k <= |t.requests| <= (if maxIter < k then k else maxIter)
            && (t.status == Crashed <==> exists i :: 0 <= i < |t.requests| && Raises(w, w.reply(i)))
    decreases maxIter - k
  {
    hide Raises, RunOk, Round;
    if k < maxIter {
      var s1 := Round(w, s, w.reply(k));
      RoundKeepsRunOk(w, messages, s, w.reply(k));
      if s1.status == Going {
        RoundsKeepRunOk(w, messages, s1, k + 1, maxIter);
      } else {
        assert Rounds(w, s1, k + 1, maxIter) == s1;
      }
    }
  }

  /** Whatever the upstream replies and the tools answer: at most `maxIter` requests;
      in each, every earlier tool call is answered exactly once and in order, and a
      doom-loop note stands at the end exactly when the calls show one; each tool
      call frame is followed by its result; and one terminal frame, `done` or
      `error`, comes last, unless the arguments of some call crash the generator. */
  lemma DriveIsWellFormed(w: World, messages: seq<Message>, maxIter: int)
    ensures var t := Drive(w, messages, maxIter);
            && |t.requests| <= (if maxIter < 0 then 0 else maxIter)
            && (forall i :: 0 <= i < |t.requests| ==>
                  Extends(t.requests[i], messages) && Guarded(w, t.requests[i], messages))
            && (t.status == Crashed <==> exists i :: 0 <= i < |t.requests| && Raises(w, w.reply(i)))
            && (t.status == Crashed ==> Body(t.frames))
            && (t.status != Crashed ==>
                  && t.frames != []
                  && Body(t.frames[..|t.frames| - 1])
                  && var last := t.frames[|t.frames| - 1];
                     if t.status == Broken then last.FError? else last == FDone)
  {
    hide Extends, Guarded, Body, Raises, Rounds;
    var start := Run(messages, [], [], 0, Going);
    StartIsOk(w, messages);
    RoundsKeepRunOk(w, messages, start, 0, maxIter);
    var s, t := Rounds(w, start, 0, maxIter), Drive(w, messages, maxIter);
    if s.status == Going || s.status == Answered {
      assert t.frames[..|t.frames| - 1] == s.frames;
    }
  }

  lemma StartIsOk(w: World, messages: seq<Message>)
    ensures RunOk(w, messages, Run(messages, [], [], 0, Going))
  {
    assert messages[|messages|..] == [];
  }

  /** In a stream of frames nothing but the last can be terminal. */
  lemma {:induction false} BodyHasNoTerminal(fs: seq<Frame>, i: nat)
    requires Body(fs) && i < |fs|
    ensures !fs[i].FDone? && !fs[i].FError?
    decreases |fs|
  {
    var n := if fs[0].FToolCall? then 2 else 1;
    if i >= n {
      BodyHasNoTerminal(fs[n..], i - n);
    }
  }

  const NUMBER_REPLY := Reply([Delta("", [TcDelta(0, "c", "f", "5")])], None)

  lemma NumberReplyCalls()
    ensures CallsOf(NUMBER_REPLY) == [Call("c", "f", "5")] && ContentFrames(NUMBER_REPLY.deltas) == []
  {
    var d := TcDelta(0, "c", "f", "5");
    var deltas := NUMBER_REPLY.deltas;
    hide Assemble;
    OneDelta("c", "f", "5");
    assert deltas[1..] == [];
    assert AllCalls([]) == [] && [d] + [] == [d];
  }

  /** A reply that calls a tool with the arguments `5`, valid JSON, crashes the generator
      in the first round, with no terminal frame. */
  lemma NumberArgumentsCrash(w: World, messages: seq<Message>, maxIter: int)
    requires maxIter >= 1 && w.reply(0) == NUMBER_REPLY && w.loads("5") == Some(JNum("5"))
    ensures Drive(w, messages, maxIter).status == Crashed && Drive(w, messages, maxIter).frames == []
  {
    hide Rounds, CallsOf, ContentFrames, NoteMessages;
    NumberReplyCalls();
    var s := Run(messages, [], [], 0, Going);
    var s1 := Ask(w, s, NUMBER_REPLY);
    var t := Round(w, s, NUMBER_REPLY);
    assert t.status == Crashed && t.frames == s1.frames == [];
    RoundsTurn(w, s, maxIter);
  }

  lemma RoundsTurn(w: World, s: Run, maxIter: int)
    requires maxIter >= 1 && s.status == Going && Round(w, s, w.reply(0)).status != Going
    ensures Rounds(w, s, 0, maxIter) == Round(w, s, w.reply(0))
  {
    hide Round;
  }
}
