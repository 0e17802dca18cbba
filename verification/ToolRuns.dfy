/** Whole runs of the tool loop in terms of the upstream's replies: what each request adds to
    the one before, what the client reads, and which reply ends the run how. */
module ToolRuns {
  import opened Text
  import opened DoomLoop
  import opened ToolAssembly
  import opened ToolLoop

  // ---- A reply and its chunks ---------------------------------------------------------------

  lemma Regrouped<T>(a: seq<T>, b: seq<T>, c: seq<T>, d: seq<T>)
    ensures a + (b + c + d) == a + b + c + d && a + (b + c) == a + b + c && [] + c + d == c + d
  {
  }

  /** Content, frames and call fragments of a reply are those of its chunks, in order. */
  lemma {:induction false} ReplyIsItsChunks(a: seq<Delta>, d: Delta, b: seq<Delta>)
    ensures Content(a + [d] + b) == Content(a) + d.content + Content(b)
    ensures AllCalls(a + [d] + b) == AllCalls(a) + d.calls + AllCalls(b)
    ensures ContentFrames(a + [d] + b)
         == ContentFrames(a) + (if d.content == "" then [] else [FDelta(d.content)]) + ContentFrames(b)
    ensures Content([]) == "" && AllCalls([]) == [] && ContentFrames([]) == []
    decreases |a|
  {
    hide Content, AllCalls, ContentFrames;
    var all := a + [d] + b;
    StreamTurn([]);
    StreamTurn(all);
    StreamTurn(a);
    var own := if d.content == "" then [] else [FDelta(d.content)];
    if a == [] {
      assert all[0] == d && all[1..] == b;
      Regrouped("", "", d.content, Content(b));
      Regrouped([], [], d.calls, AllCalls(b));
      Regrouped([], [], own, ContentFrames(b));
    } else {
      ReplyIsItsChunks(a[1..], d, b);
      assert all[0] == a[0] && all[1..] == a[1..] + [d] + b;
      Regrouped(a[0].content, Content(a[1..]), d.content, Content(b));
      Regrouped(a[0].calls, AllCalls(a[1..]), d.calls, AllCalls(b));
      var head := if a[0].content != "" then [FDelta(a[0].content)] else [];
      Regrouped(head, ContentFrames(a[1..]), own, ContentFrames(b));
    }
  }

  lemma {:induction false} NoFragments(deltas: seq<Delta>)
    ensures AllCalls(deltas) == [] <==> forall i :: 0 <= i < |deltas| ==> deltas[i].calls == []
  {
    if deltas != [] {
      NoFragments(deltas[1..]);
      assert deltas == [deltas[0]] + deltas[1..];
    }
  }

  /** A reply asks for no call if and only if none of its chunks has a fragment of one. */
  lemma NoCallsIff(reply: Reply)
    ensures CallsOf(reply) == [] <==> forall i :: 0 <= i < |reply.deltas| ==> reply.deltas[i].calls == []
  {
    hide AllCalls;
    NoFragments(reply.deltas);
    var all := AllCalls(reply.deltas);
    if all != [] {
      assert |Assemble(all)| > all[|all| - 1].index;
    }
  }

  // ---- How a run ends ----------------------------------------------------------------------

  /** After this reply the loop goes on. */
  ghost predicate GoesOn(w: World, reply: Reply) {
    reply.error.None? && CallsOf(reply) != [] && SafeCalls(w, CallsOf(reply))
  }

  lemma RoundEnds(w: World, s: Run, reply: Reply)
    requires s.status == Going
    ensures var t := Round(w, s, reply);
            && |t.requests| == |s.requests| + 1
            && (reply.error.Some? ==>
                  t.status == Broken && t.frames != [] && t.frames[|t.frames| - 1] == FError(reply.error.value))
            && (reply.error.None? && CallsOf(reply) == [] ==> t.status == Answered)
            && (reply.error.None? && CallsOf(reply) != [] ==>
                  t.status == if SafeCalls(w, CallsOf(reply)) then Going else Crashed)
  {
    hide CallsOf, SafeCalls, Execute, Content, NoteMessages, ContentFrames;
    var s1, calls := Ask(w, s, reply), CallsOf(reply);
    if reply.error.None? && calls != [] {
      var asked := s1.conversation + [AssistantCalls(Content(reply.deltas), calls)];
      var answers, pairs := ExecuteAnswers(w, s1.(conversation := asked), calls);
    }
  }

  lemma {:induction false} RoundsEnd(w: World, s: Run, k: nat, maxIter: int)
    requires |s.requests| == k && s.status == Going
    ensures var t := Rounds(w, s, k, maxIter);
            var n := |t.requests|;
            && k <= n && (forall i :: k <= i < n - 1 ==> GoesOn(w, w.reply(i)))
            && (t.status == Going ==>
                  n == (if maxIter < k then k else maxIter) && forall i :: k <= i < n ==> GoesOn(w, w.reply(i)))
            && (t.status != Going ==> n > k && EndsWith(w, t, w.reply(n - 1)))
    decreases maxIter - k
  {
    hide Round, GoesOn, EndsWith;
    if k < maxIter {
      var s1 := Round(w, s, w.reply(k));
      RoundEnds(w, s, w.reply(k));
      EndOrOn(w, s1, w.reply(k));
      if s1.status == Going {
        RoundsEnd(w, s1, k + 1, maxIter);
      } else {
        assert Rounds(w, s1, k + 1, maxIter) == s1;
      }
    }
  }

  /** The reply that ended the loop, and how. */
  ghost predicate EndsWith(w: World, t: Run, last: Reply) {
    && (t.status == Broken <==> last.error.Some?)
    && (t.status == Broken ==> t.frames != [] && t.frames[|t.frames| - 1] == FError(last.error.value))
    && (t.status == Answered <==> last.error.None? && CallsOf(last) == [])
    && (t.status == Crashed <==> last.error.None? && !SafeCalls(w, CallsOf(last)))
  }

  lemma EndOrOn(w: World, t: Run, reply: Reply)
    requires reply.error.Some? ==>
      t.status == Broken && t.frames != [] && t.frames[|t.frames| - 1] == FError(reply.error.value)
    requires reply.error.None? && CallsOf(reply) == [] ==> t.status == Answered
    requires reply.error.None? && CallsOf(reply) != [] ==>
      t.status == if SafeCalls(w, CallsOf(reply)) then Going else Crashed
    ensures t.status == Going <==> GoesOn(w, reply)
    ensures t.status != Going ==> EndsWith(w, t, reply)
  {
    hide CanProbe, CallsOf;
  }

  /** The replies decide the end of a run. Every reply but the last one has calls and no
      error. The stream ends in `error`, with its message, if and only if the last reply
      broke off with it, in no frame if and only if that reply has a call whose arguments
      crash the generator, and in `done` otherwise: either the last reply asked for no call,
      or `maxIter` requests were sent and answered with calls. */
  lemma DriveEnds(w: World, messages: seq<Message>, maxIter: int)
    ensures var t := Drive(w, messages, maxIter);
            var n := |t.requests|;
            && (forall i :: 0 <= i < n - 1 ==> GoesOn(w, w.reply(i)))
            && (t.status != Going ==> n > 0)
            && (t.status == Broken <==> n > 0 && w.reply(n - 1).error.Some?)
            && (t.status == Broken ==>
                  t.frames != [] && t.frames[|t.frames| - 1] == FError(w.reply(n - 1).error.value))
            && (t.status == Answered <==> n > 0 && w.reply(n - 1).error.None? && CallsOf(w.reply(n - 1)) == [])
            && (t.status == Crashed <==>
                  n > 0 && w.reply(n - 1).error.None? && !SafeCalls(w, CallsOf(w.reply(n - 1))))
            && (t.status == Going <==> n == 0 || GoesOn(w, w.reply(n - 1)))
            && (t.status == Going ==> n == if maxIter < 0 then 0 else maxIter)
            && (t.status == Going || t.status == Answered ==>
                  t.frames != [] && t.frames[|t.frames| - 1] == FDone)
  {
    hide Rounds, CallsOf, CanProbe;
    var start := Run(messages, [], [], 0, Going);
    RoundsEnd(w, start, 0, maxIter);
    NothingSafe(w);
  }

  lemma NothingSafe(w: World)
    ensures SafeCalls(w, [])
  {
  }

  // ---- What each request adds ------------------------------------------------------------------

  /** How many calls the first `i` replies ask for. */
  function CallsBefore(w: World, i: nat): nat {
    if i == 0 then 0 else CallsBefore(w, i - 1) + |CallsOf(w.reply(i - 1))|
  }

  /** After `r` come an assistant message with the reply's text and calls, and for each call
      in order the result of its execution, the executions being numbered from `m`. */
  ghost predicate Continues(w: World, r: seq<Message>, c: seq<Message>, reply: Reply, m: nat) {
    var calls := CallsOf(reply);
    && |c| == |r| + 1 + |calls| && c[..|r|] == r
    && c[|r|] == AssistantCalls(Content(reply.deltas), calls)
    && forall j :: 0 <= j < |calls| ==> c[|r| + 1 + j] == ToolResultFor(calls[j].id, w.tool(m + j))
  }

  /** With or without a doom-loop note at the end. */
  ghost predicate Noted(c: seq<Message>, r: seq<Message>) {
    r == c || (|r| == |c| + 1 && r[..|c|] == c && r[|c|].SystemNote?)
  }

  ghost predicate NextRequest(w: World, r: seq<Message>, next: seq<Message>, reply: Reply, m: nat) {
    exists c :: Continues(w, r, c, reply, m) && Noted(c, next)
  }

  /** Everything the first `k` replies said. */
  function Told(w: World, k: nat): string {
    if k == 0 then "" else Told(w, k - 1) + Content(w.reply(k - 1).deltas)
  }

  ghost predicate RequestsFollow(w: World, messages: seq<Message>, requests: seq<seq<Message>>) {
    && (requests != [] ==> Noted(messages, requests[0]))
    && forall i :: 0 <= i < |requests| - 1 ==>
         NextRequest(w, requests[i], requests[i + 1], w.reply(i), CallsBefore(w, i))
  }

  ghost predicate Follows(w: World, messages: seq<Message>, s: Run) {
    var k := |s.requests|;
    && RequestsFollow(w, messages, s.requests)
    && Said(s.frames) == Told(w, k)
    && (s.status == Going ==>
          && s.executed == CallsBefore(w, k)
          && if k == 0 then s.conversation == messages
             else Continues(w, s.requests[k - 1], s.conversation, w.reply(k - 1), CallsBefore(w, k - 1)))
  }

  lemma SaidCons(f: Frame, fs: seq<Frame>)
    ensures Said([f] + fs) == (if f.FDelta? then f.content else "") + Said(fs)
  {
    assert ([f] + fs)[1..] == fs;
  }

  lemma SaidNone()
    ensures Said([]) == ""
  {
  }

  lemma {:induction false} SaidAppend(a: seq<Frame>, b: seq<Frame>)
    ensures Said(a + b) == Said(a) + Said(b)
  {
    hide Said;
    if a == [] {
      SaidNone();
      assert a + b == b;
      Regrouped("", "", "", Said(b));
    } else {
      SaidAppend(a[1..], b);
      SaidCons(a[0], a[1..]);
      SaidCons(a[0], a[1..] + b);
      assert [a[0]] + a[1..] == a && [a[0]] + (a[1..] + b) == a + b;
      Regrouped(if a[0].FDelta? then a[0].content else "", Said(a[1..]), Said(b), "");
    }
  }

  lemma SaysNothing(fs: seq<Frame>, a: Frame)
    requires !a.FDelta?
    ensures Said(fs + [a]) == Said(fs)
  {
    SaidAppend(fs, [a]);
    assert [a][1..] == [];
    assert Said([a]) == "";
    assert Said(fs) + "" == Said(fs);
  }

  lemma {:induction false} ExecuteSaysNothing(w: World, s: Run, calls: seq<Call>)
    ensures Said(Execute(w, s, calls).frames) == Said(s.frames)
    ensures Execute(w, s, calls).requests == s.requests
    decreases |calls|
  {
    hide ArgsOf, ProbeRaises, Take500, Said;
    if calls != [] {
      var c := calls[0];
      var args, result := ArgsOf(w, c.arguments), w.tool(s.executed);
      if !ProbeRaises(args) {
        var f, g := FToolCall(c.name, args), FToolResult(c.name, Take500(result));
        var s1 := s.(frames := s.frames + [f, g], conversation := s.conversation + [ToolResultFor(c.id, result)],
                     executed := s.executed + 1);
        assert s.frames + [f, g] == s.frames + [f] + [g];
        SaysNothing(s.frames, f);
        SaysNothing(s.frames + [f], g);
        ExecuteSaysNothing(w, s1, calls[1..]);
      }
    }
  }

  lemma AskFollows(w: World, messages: seq<Message>, s: Run)
    requires Follows(w, messages, s) && s.status == Going
    ensures var k, s1 := |s.requests|, Ask(w, s, w.reply(|s.requests|));
            && RequestsFollow(w, messages, s1.requests) && |s1.requests| == k + 1
            && s1.conversation == s1.requests[k] && s1.executed == s.executed && s1.status == Going
            && Said(s1.frames) == Told(w, k + 1)
  {
    hide Said, Continues, NoteFor, History, Content, ContentFrames;
    var k := |s.requests|;
    var s1, reply := Ask(w, s, w.reply(k)), w.reply(k);
    SaidAppend(s.frames, ContentFrames(reply.deltas));
    StreamedIsSaid(reply.deltas);
    var note := NoteMessages(w, s.conversation);
    assert Noted(s.conversation, s1.conversation) by {
      if note == [] {
        assert s1.conversation == s.conversation;
      } else {
        assert s1.conversation[..|s.conversation|] == s.conversation;
      }
    }
    if k > 0 {
      assert NextRequest(w, s.requests[k - 1], s1.requests[k], w.reply(k - 1), CallsBefore(w, k - 1));
    }
    forall i | 0 <= i < k
      ensures NextRequest(w, s1.requests[i], s1.requests[i + 1], w.reply(i), CallsBefore(w, i))
    {
      if i < k - 1 {
        assert s1.requests[i] == s.requests[i] && s1.requests[i + 1] == s.requests[i + 1];
      }
    }
  }

  lemma CallsContinue(w: World, s1: Run, reply: Reply)
    requires s1.status == Going && SafeCalls(w, CallsOf(reply))
    ensures var asked := s1.conversation + [AssistantCalls(Content(reply.deltas), CallsOf(reply))];
            var t := Execute(w, s1.(conversation := asked), CallsOf(reply));
            && Continues(w, s1.conversation, t.conversation, reply, s1.executed)
            && t.executed == s1.executed + |CallsOf(reply)|
  {
    hide CallsOf, SafeCalls, Execute, Content, Parsed;
    var calls := CallsOf(reply);
    var asked := s1.conversation + [AssistantCalls(Content(reply.deltas), calls)];
    var s2 := s1.(conversation := asked);
    var t := Execute(w, s2, calls);
    ResultsMatchCalls(w, s2, calls);
    assert asked <= t.conversation;
    assert t.conversation[..|s1.conversation|] == asked[..|s1.conversation|] == s1.conversation;
    assert t.conversation[|s1.conversation|] == asked[|s1.conversation|];
    forall j | 0 <= j < |calls|
      ensures t.conversation[|s1.conversation| + 1 + j] == ToolResultFor(calls[j].id, w.tool(s1.executed + j))
    {
      assert ResultAt(w, s2, t, calls[j], j);
    }
  }

  lemma RoundFollows(w: World, messages: seq<Message>, s: Run)
    requires Follows(w, messages, s) && s.status == Going
    ensures Follows(w, messages, Round(w, s, w.reply(|s.requests|)))
  {
    hide Said, Continues, CallsOf, SafeCalls, Execute, Content, Ask, RequestsFollow;
    var k := |s.requests|;
    var reply := w.reply(k);
    var s1, t := Ask(w, s, reply), Round(w, s, reply);
    AskFollows(w, messages, s);
    RoundEnds(w, s, reply);
    if reply.error.Some? {
      SaysNothing(s1.frames, FError(reply.error.value));
    } else if CallsOf(reply) != [] {
      var asked := s1.conversation + [AssistantCalls(Content(reply.deltas), CallsOf(reply))];
      ExecuteSaysNothing(w, s1.(conversation := asked), CallsOf(reply));
      if SafeCalls(w, CallsOf(reply)) {
        CallsContinue(w, s1, reply);
      }
    }
  }

  lemma {:induction false} RoundsFollow(w: World, messages: seq<Message>, s: Run, k: nat, maxIter: int)
    requires Follows(w, messages, s) && |s.requests| == k && s.status == Going
    ensures Follows(w, messages, Rounds(w, s, k, maxIter))
    decreases maxIter - k
  {
    hide Follows, Round;
    if k < maxIter {
      var s1 := Round(w, s, w.reply(k));
      RoundFollows(w, messages, s);
      RoundEnds(w, s, w.reply(k));
      if s1.status == Going {
        RoundsFollow(w, messages, s1, k + 1, maxIter);
      } else {
        assert Rounds(w, s1, k + 1, maxIter) == s1;
      }
    }
  }

  /** The first request is the caller's messages; each later one is the one before, then the
      text and the calls of the reply to it, then each call's result, and in either case
      possibly a note. What the client reads is all the replies said, whatever the end. */
  lemma DriveFollows(w: World, messages: seq<Message>, maxIter: int)
    ensures var t := Drive(w, messages, maxIter);
            RequestsFollow(w, messages, t.requests) && Said(t.frames) == Told(w, |t.requests|)
  {
    hide Rounds, RequestsFollow, Said, Told, CallsBefore;
    var start := Run(messages, [], [], 0, Going);
    StartFollows(w, messages);
    RoundsFollow(w, messages, start, 0, maxIter);
    SaysNothing(Rounds(w, start, 0, maxIter).frames, FDone);
  }

  lemma StartFollows(w: World, messages: seq<Message>)
    ensures Follows(w, messages, Run(messages, [], [], 0, Going))
  {
  }

  // ---- What counts as a repetition --------------------------------------------------------------

  /** All tool calls of a conversation, in order. */
  function CallsIn(messages: seq<Message>): seq<Call> {
    if messages == [] then []
    else (if messages[0].AssistantCalls? then messages[0].calls else []) + CallsIn(messages[1..])
  }

  lemma {:induction false} HistoryOfEach(w: World, calls: seq<Call>)
    ensures |HistoryOfCalls(w, calls)| == |calls|
    ensures forall i :: 0 <= i < |calls| ==>
      HistoryOfCalls(w, calls)[i] == ToolCall(calls[i].name, HistoryArgs(w, calls[i].arguments))
  {
    hide HistoryArgs;
    if calls != [] {
      HistoryOfEach(w, calls[1..]);
    }
  }

  /** The detector sees every call of the conversation, in order. */
  lemma {:induction false} HistoryIsCalls(w: World, messages: seq<Message>)
    ensures |History(w, messages)| == |CallsIn(messages)|
    ensures forall i :: 0 <= i < |CallsIn(messages)| ==>
      History(w, messages)[i] == ToolCall(CallsIn(messages)[i].name, HistoryArgs(w, CallsIn(messages)[i].arguments))
  {
    hide HistoryArgs, HistoryOfCalls;
    if messages != [] {
      HistoryIsCalls(w, messages[1..]);
      if messages[0].AssistantCalls? {
        HistoryOfEach(w, messages[0].calls);
      }
    }
  }

  /** An object with the one key the detector uses for arguments that are no object. */
  predicate Wraps(v: Json) {
    v.JObj? && (v.fields.Keys == {"_raw"} || v.fields.Keys == {"_value"})
  }

  ghost predicate SameArgs(w: World, a: string, b: string) {
    match (Parsed(w, a), Parsed(w, b))
    case (Some(u), Some(v)) => u == v
    case (None, None) => a == b
    case _ => false
  }

  lemma WrappedIs(w: World, a: string)
    requires Parsed(w, "").Some?
    ensures match Parsed(w, a)
            case None => HistoryArgs(w, a) == JObj(map["_raw" := JStr(a)])
            case Some(v) => HistoryArgs(w, a) == if v.JObj? then v else JObj(map["_value" := v])
  {
  }

  lemma WrapsItself(k: string, v: Json)
    requires k == "_raw" || k == "_value"
    ensures Wraps(JObj(map[k := v]))
  {
    assert map[k := v].Keys == {k};
  }

  /** Two calls of one tool count as the same if and only if their arguments parse to the
      same JSON, or neither is JSON and the texts are equal; for arguments that are not by
      themselves of the shape the detector wraps others in. */
  lemma SameArgsIff(w: World, a: string, b: string)
    requires Parsed(w, "").Some?
    requires Parsed(w, a).Some? ==> !Wraps(Parsed(w, a).value)
    requires Parsed(w, b).Some? ==> !Wraps(Parsed(w, b).value)
    ensures HistoryArgs(w, a) == HistoryArgs(w, b) <==> SameArgs(w, a, b)
  {
    hide Parsed, HistoryArgs;
    WrappedIs(w, a);
    WrappedIs(w, b);
    match (Parsed(w, a), Parsed(w, b))
    case (Some(u), Some(v)) =>
      WrapsItself("_value", u);
      WrapsItself("_value", v);
      assert map["_value" := u]["_value"] == u && map["_value" := v]["_value"] == v;
    case (Some(u), None) =>
      WrapsItself("_raw", JStr(b));
      OtherKey(u, b);
    case (None, Some(v)) =>
      WrapsItself("_raw", JStr(a));
      OtherKey(v, a);
    case (None, None) =>
      assert map["_raw" := JStr(a)]["_raw"] == JStr(a) && map["_raw" := JStr(b)]["_raw"] == JStr(b);
  }

  lemma OtherKey(v: Json, a: string)
    ensures JObj(map["_value" := v]) != JObj(map["_raw" := JStr(a)])
  {
    assert "_value" in map["_value" := v] && "_value" !in map["_raw" := JStr(a)];
  }

  /** The same call at three places among the last eight. */
  ghost predicate Repeats(h: seq<ToolCall>) {
    exists i, j, k :: 0 <= i < j < k < |h| && |h| - 8 <= i && h[i] == h[j] == h[k]
  }

  lemma {:induction false} LastPlace(s: seq<ToolCall>, x: ToolCall) returns (i: nat)
    requires multiset(s)[x] > 0
    ensures i < |s| && s[i] == x && multiset(s[..i])[x] == multiset(s)[x] - 1
  {
    var n := |s| - 1;
    assert s == s[..n] + [s[n]];
    if s[n] == x {
      i := n;
    } else {
      i := LastPlace(s[..n], x);
      assert s[..n][..i] == s[..i];
    }
  }

  lemma CountUpTo(s: seq<ToolCall>, i: nat, x: ToolCall)
    requires i < |s| && s[i] == x
    ensures multiset(s)[x] >= multiset(s[..i])[x] + 1
  {
    assert s == s[..i] + [s[i]] + s[i + 1..];
  }

  lemma ThreeCount(s: seq<ToolCall>, i: nat, j: nat, k: nat)
    requires i < j < k < |s| && s[i] == s[j] == s[k]
    ensures multiset(s)[s[k]] >= 3
  {
    CountUpTo(s, k, s[k]);
    CountUpTo(s[..k], j, s[k]);
    CountUpTo(s[..k][..j], i, s[k]);
  }

  lemma ThreePlaces(s: seq<ToolCall>, x: ToolCall) returns (i: nat, j: nat, k: nat)
    requires multiset(s)[x] >= 3
    ensures i < j < k < |s| && s[i] == s[j] == s[k] == x
  {
    k := LastPlace(s, x);
    j := LastPlace(s[..k], x);
    i := LastPlace(s[..k][..j], x);
  }

  lemma LastEight(h: seq<ToolCall>) returns (n: nat)
    ensures n <= |h| && Recent(h, DEFAULT_WINDOW) == h[n..] && n == if |h| <= 8 then 0 else |h| - 8
  {
    n := if |h| <= 8 then 0 else |h| - 8;
    assert h[0..] == h;
  }

  lemma ThreeInTail(h: seq<ToolCall>, n: nat, i: nat, j: nat, k: nat)
    requires n <= i < j < k < |h| && h[i] == h[j] == h[k]
    ensures multiset(h[n..])[h[k]] >= 3
  {
    var tail := h[n..];
    assert tail[i - n] == h[i] && tail[j - n] == h[j] && tail[k - n] == h[k];
    ThreeCount(tail, i - n, j - n, k - n);
  }

  lemma RepeatsCount(h: seq<ToolCall>) returns (call: ToolCall)
    requires Repeats(h)
    ensures multiset(Recent(h, DEFAULT_WINDOW))[call] >= 3
  {
    hide Recent;
    var n := LastEight(h);
    var i, j, k :| 0 <= i < j < k < |h| && |h| - 8 <= i && h[i] == h[j] == h[k];
    call := h[k];
    ThreeInTail(h, n, i, j, k);
  }

  lemma CountRepeats(h: seq<ToolCall>, call: ToolCall)
    requires multiset(Recent(h, DEFAULT_WINDOW))[call] >= 3
    ensures Repeats(h)
  {
    hide Recent;
    var n := LastEight(h);
    var i, j, k := ThreePlaces(h[n..], call);
    assert h[n + i] == h[n..][i] && h[n + j] == h[n..][j] && h[n + k] == h[n..][k];
  }

  /** With the default window and threshold a note is due if and only if the last eight
      calls hold one three times. */
  lemma NoteIff(h: seq<ToolCall>)
    ensures NoteFor(h, DEFAULT_WINDOW, DEFAULT_THRESHOLD).Some? <==> Repeats(h)
  {
    hide NoteFor, FirstToRepeat, Recent, Repeats;
    DetectsExactly(h, DEFAULT_WINDOW, DEFAULT_THRESHOLD);
    if Repeats(h) {
      var call := RepeatsCount(h);
    }
    if call :| multiset(Recent(h, DEFAULT_WINDOW))[call] >= 3 {
      CountRepeats(h, call);
    }
  }

  /** So a request ends in a note exactly when, among the last eight tool calls in it, one
      tool was called three times with the same arguments. */
  lemma NotedIffRepeats(w: World, messages: seq<Message>, maxIter: int, i: nat)
    requires i < |Drive(w, messages, maxIter).requests|
    requires messages == [] || !messages[|messages| - 1].SystemNote?
    ensures var r := Drive(w, messages, maxIter).requests[i];
            (r != [] && r[|r| - 1].SystemNote?) <==> Repeats(History(w, r))
  {
    hide Drive, History, Extends, NoteFor, Repeats;
    DriveIsWellFormed(w, messages, maxIter);
    var r := Drive(w, messages, maxIter).requests[i];
    NoteIff(History(w, r));
  }
}
