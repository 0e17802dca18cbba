/** From the driver's frames to the resuming client: the three parts composed. */
module StreamEndToEnd {
  import opened SseStream
  import opened StreamStore
  import opened StreamResume
  import ToolLoop
  import ToolRuns

  function KindOf(frame: ToolLoop.Frame): Kind {
    match frame
    case FDelta(_) => Delta
    case FToolCall(_, _) => ToolCall
    case FToolResult(_, _) => ToolResult
    case FDone => Done
    case FError(_) => Error
  }

  /** A chunk's kind is its frame's. */
  lemma KindIsFrames(frame: ToolLoop.Frame)
    ensures KindText(KindOf(frame)) == if frame.FDelta? then "delta" else if frame.FToolCall? then "tool_call"
      else if frame.FToolResult? then "tool_result" else if frame.FDone? then "done" else "error"
  {
  }

  /** The chunks a driver puts for its frames; `dumps` renders payloads. */
  function Chunks(frames: seq<ToolLoop.Frame>, dumps: ToolLoop.Frame -> string): (r: seq<Row>)
    ensures |r| == |frames|
    ensures forall i :: 0 <= i < |r| ==> r[i] == Row(i, KindOf(frames[i]), dumps(frames[i]))
  {
    seq(|frames|, i requires 0 <= i < |frames| => Row(i, KindOf(frames[i]), dumps(frames[i])))
  }

  /** A last reply without error, none of whose calls crashes the generator. */
  ghost predicate EndsWell(w: ToolLoop.World, last: ToolLoop.Reply) {
    last.error.None? && ToolLoop.SafeCalls(w, ToolLoop.CallsOf(last))
  }

  lemma EndsWellIff(w: ToolLoop.World)
    ensures forall r: ToolLoop.Reply :: ToolRuns.GoesOn(w, r) ==> EndsWell(w, r)
    ensures ToolLoop.SafeCalls(w, [])
  {
  }

  /** A driver's chunks hold `done` in last place, exactly when its run ended well. */
  lemma ChunksEndWithDone(w: ToolLoop.World, messages: seq<ToolLoop.Message>, maxIter: int,
                          dumps: ToolLoop.Frame -> string)
    ensures var t := ToolLoop.Drive(w, messages, maxIter);
            var chunks := Chunks(t.frames, dumps);
            && Numbered(chunks) && DoneLast(chunks)
            && (HasDone(chunks) <==> t.status != ToolLoop.Broken && t.status != ToolLoop.Crashed)
            && (HasDone(chunks) <==> t.requests == [] || EndsWell(w, w.reply(|t.requests| - 1)))
  {
    ToolRuns.DriveEnds(w, messages, maxIter);
    EndsWellIff(w);
    var t := ToolLoop.Drive(w, messages, maxIter);
    hide ToolLoop.Drive, ToolLoop.Body;
    ToolLoop.DriveIsWellFormed(w, messages, maxIter);
    var chunks := Chunks(t.frames, dumps);
    var body := if t.status == ToolLoop.Crashed then t.frames else t.frames[..|t.frames| - 1];
    forall i | 0 <= i < |body| ensures chunks[i].kind != Done {
      ToolLoop.BodyHasNoTerminal(body, i);
      assert t.frames[i] == body[i];
    }
    if t.status != ToolLoop.Broken && t.status != ToolLoop.Crashed {
      assert chunks[|chunks| - 1].kind == Done;
    }
  }

  /** Whatever of these chunks has reached the table, `done` is only at its end. */
  lemma TableEndsWithDone(s: State, chunks: seq<Row>)
    requires Inv(s) && s.emitted <= chunks && DoneLast(chunks)
    ensures DoneLast(s.rows)
  {
    hide QueueOk, Pending;
    forall i | 0 <= i < |s.rows| - 1 ensures s.rows[i].kind != Done {
      var n := s.rows[i].seqNo;
      assert s.rows[i].seqNo < s.rows[i + 1].seqNo < |s.settled|;
      assert s.settled[n] == s.emitted[n] == chunks[n];
    }
  }

  /** The last poll finds a driver's whole run in the table. */
  ghost predicate Complete(trace: seq<State>, times: seq<nat>, chunks: seq<Row>) {
    && times != [] && times[|times| - 1] < |trace|
    && var end := trace[times[|times| - 1]];
       end.emitted == chunks && end.phase == Stopped && !end.failed
  }

  /** End to end: for every run of the driver, every interleaving of its puts with
      the worker, and every moment of the reader's queries, a client that resumes
      after a chunk the table already holds, with both first queries on one table,
      and whose last poll finds the finished stream, is sent exactly the frames
      after the one it has. */
  lemma ClientGetsTheRest(w: ToolLoop.World, messages: seq<ToolLoop.Message>, maxIter: int,
                          dumps: ToolLoop.Frame -> string,
                          trace: seq<State>, start: int, t0: nat, t1: nat, times: seq<nat>)
    requires IsExecution(trace) && Moments(trace, t0, t1, times)
    requires -1 <= start < |trace[t1].rows| && trace[t0].rows == trace[t1].rows
    requires Complete(trace, times, Chunks(ToolLoop.Drive(w, messages, maxIter).frames, dumps))
    ensures var chunks := Chunks(ToolLoop.Drive(w, messages, maxIter).frames, dumps);
            && start + 1 <= |chunks|
            && Resumed(start, trace[t0].rows, trace[t1].rows, PollsAt(trace, times)).rows == chunks[start + 1..]
  {
    hide IsExecution, Resumed, Inv, ToolLoop.Drive, DoneLast, Numbered;
    var last := times[|times| - 1];
    var chunks := Chunks(ToolLoop.Drive(w, messages, maxIter).frames, dumps);
    ChunksEndWithDone(w, messages, maxIter, dumps);
    RowsArePrefix(trace, last);
    TableEndsWithDone(trace[last], chunks);
    ResumeOverExecution(trace, start, t0, t1, times);
    RowsGrow(trace, t1, last);
    AboveNumbered(chunks, start);
  }

  /** And when does that client's stream end? If and only if the run ended well and the
      `done` was still to come when the reader began: after the cursor in the table the
      replay saw, or not yet in the table the MAX query saw. */
  lemma ClientStreamEndsIff(w: ToolLoop.World, messages: seq<ToolLoop.Message>, maxIter: int,
                            dumps: ToolLoop.Frame -> string,
                            trace: seq<State>, start: int, t0: nat, t1: nat, times: seq<nat>)
    requires IsExecution(trace) && Moments(trace, t0, t1, times)
    requires Complete(trace, times, Chunks(ToolLoop.Drive(w, messages, maxIter).frames, dumps))
    ensures var t := ToolLoop.Drive(w, messages, maxIter);
            var replay, atMax, n := trace[t0].rows, trace[t1].rows, |t.frames|;
            (Resumed(start, replay, atMax, PollsAt(trace, times)).finished <==>
              && t.status != ToolLoop.Broken && t.status != ToolLoop.Crashed
              && ((start < n - 1 && |replay| == n) || (if atMax == [] then start < n - 1 else |atMax| < n)))
  {
    hide IsExecution, Resumed, Inv, ToolLoop.Drive, DoneLast, Numbered, Reads, Increasing;
    var last := times[|times| - 1];
    var chunks := Chunks(ToolLoop.Drive(w, messages, maxIter).frames, dumps);
    ChunksEndWithDone(w, messages, maxIter, dumps);
    RowsArePrefix(trace, last);
    TableEndsWithDone(trace[last], chunks);
    ReadsOverExecution(trace, t0, t1, times);
    FinishesIff(start, trace[t0].rows, trace[t1].rows, PollsAt(trace, times), chunks);
    DoneIsLast(chunks);
    CutNumbered(chunks, start);
  }

  lemma DoneIsLast(chunks: seq<Row>)
    requires DoneLast(chunks)
    ensures HasDone(chunks) <==> chunks != [] && chunks[|chunks| - 1].kind == Done
  {
  }

  lemma CutNumbered(chunks: seq<Row>, start: int)
    requires Numbered(chunks)
    ensures chunks != [] ==> (Cut(chunks, start) < |chunks| <==> start < |chunks| - 1)
  {
    hide Cut;
    if chunks != [] {
      CutSplits(chunks, start, |chunks| - 1);
    }
  }

  lemma AboveNumbered(chunks: seq<Row>, start: int)
    requires Numbered(chunks) && -1 <= start < |chunks|
    ensures Above(chunks, start) == chunks[start + 1..]
  {
    hide Above;
    AbovePrefix(chunks, |chunks|, start);
    assert chunks[..|chunks|] == chunks;
    if start + 1 < |chunks| {
      CutSplits(chunks, start, start + 1);
    }
    if start >= 0 {
      CutSplits(chunks, start, start);
    }
  }
}
