/** The driver object as it runs: `_run` with its `_emit` closure, which numbers the
    frames it hands to the chunk persister. */
module ToolDriver {
  import opened DoomLoop
  import opened ToolAssembly
  import opened ToolLoop

  /** What the persister is given: each frame with its sequence number. */
  function Numbering(frames: seq<Frame>): (r: seq<(nat, Frame)>)
    ensures |r| == |frames| && forall i :: 0 <= i < |r| ==> r[i] == (i, frames[i])
  {
    seq(|frames|, i requires 0 <= i < |frames| => (i, frames[i]))
  }

  class Driver {
    const persisting: bool
    var conversation: seq<Message>
    var frames: seq<Frame>
    var puts: seq<(nat, Frame)>
    var seqNo: nat
    var requests: seq<seq<Message>>
    var executed: nat

    constructor (messages: seq<Message>, persisting: bool)
      ensures Snapshot(Going) == Run(messages, [], [], 0, Going)
      ensures this.persisting == persisting && Valid()
    {
      this.persisting := persisting;
      conversation, frames, requests, executed := messages, [], [], 0;
      puts, seqNo := [], 0;
    }

    function Snapshot(status: Status): Run
      reads this
    {
      Run(conversation, frames, requests, executed, status)
    }

    /** Every frame so far was put under its position, or there is no persister. */
    ghost predicate Valid()
      reads this`frames, this`puts, this`seqNo
    {
      && puts == (if persisting then Numbering(frames) else [])
      && seqNo == |puts|
    }

    /** `_emit`. */
    method Emit(frame: Frame)
      requires Valid()
      modifies this`frames, this`puts, this`seqNo
      ensures Valid() && frames == old(frames) + [frame]
    {
      frames := frames + [frame];
      if persisting {
        puts := puts + [(seqNo, frame)];
        seqNo := seqNo + 1;
      }
    }

    /** Streaming one reply: content goes out as it comes, tool calls are collected. */
    method Stream(reply: Reply) returns (content: string, calls: seq<Call>)
      requires Valid()
      modifies this`frames, this`puts, this`seqNo
      ensures Valid()
      ensures frames == old(frames) + ContentFrames(reply.deltas)
      ensures content == Content(reply.deltas) && calls == CallsOf(reply)
    {
      hide Assemble, Content, ContentFrames, AllCalls, Valid;
      var deltas := reply.deltas;
      content, calls := "", [];
      assert "" + Content(deltas) == Content(deltas) && [] + AllCalls(deltas) == AllCalls(deltas);
      ghost var collected: seq<TcDelta> := [];
      NothingAssembled();
      for i := 0 to |deltas|
        invariant Valid()
        invariant content + Content(deltas[i..]) == Content(deltas)
        invariant frames + ContentFrames(deltas[i..]) == old(frames) + ContentFrames(deltas)
        invariant calls == Assemble(collected) && collected + AllCalls(deltas[i..]) == AllCalls(deltas)
      {
        assert deltas[i..][1..] == deltas[i + 1..];
        StreamTurn(deltas[i..]);
        var delta := deltas[i];
        ghost var content0, frames0, rest := content, frames, deltas[i + 1..];
        assert content0 + (delta.content + Content(rest)) == content0 + delta.content + Content(rest);
        assert collected + (delta.calls + AllCalls(rest)) == collected + delta.calls + AllCalls(rest);
        assert content0 + "" == content0;
        if delta.content != "" {
          content := content + delta.content;
          Emit(FDelta(delta.content));
          assert frames0 + ([FDelta(delta.content)] + ContentFrames(rest)) == frames + ContentFrames(rest);
        } else {
          assert [] + ContentFrames(rest) == ContentFrames(rest);
        }
        calls := Collect(calls, delta.calls, collected);
        collected := collected + delta.calls;
      }
      assert deltas[|deltas|..] == [];
      StreamTurn([]);
      assert content + "" == content && collected + [] == collected && frames + [] == frames;
    }

    /** Executing the calls of a reply in order. */
    method ExecuteCalls(w: World, calls: seq<Call>) returns (status: Status)
      requires Valid()
      modifies this`frames, this`puts, this`seqNo, this`conversation, this`executed
      ensures Valid()
      ensures Snapshot(status) == Execute(w, old(Snapshot(Going)), calls)
    {
      hide ArgsOf, ProbeRaises, Valid, Take500;
      status := Going;
      for i := 0 to |calls|
        invariant Valid() && status == Going && requests == old(requests)
        invariant Execute(w, Snapshot(Going), calls[i..]) == Execute(w, old(Snapshot(Going)), calls)
      {
        assert calls[i..][1..] == calls[i + 1..];
        var c := calls[i];
        ghost var before := Snapshot(Going);
        var args := ArgsOf(w, c.arguments);
        if ProbeRaises(args) {
          status := Crashed;
          return;
        }
        Emit(FToolCall(c.name, args));
        var result := w.tool(executed);
        executed := executed + 1;
        Emit(FToolResult(c.name, Take500(result)));
        conversation := conversation + [ToolResultFor(c.id, result)];
        assert frames == before.frames + [FToolCall(c.name, args), FToolResult(c.name, Take500(result))];
      }
      assert calls[|calls|..] == [];
    }

    /** One iteration of the loop. */
    method OneRound(w: World, reply: Reply) returns (status: Status)
      requires Valid()
      modifies this
      ensures Valid()
      ensures Snapshot(status) == Round(w, old(Snapshot(Going)), reply)
    {
      hide Execute, Content, ContentFrames, CallsOf, NoteFor, History, Valid;
      var note := Detect(History(w, conversation), DEFAULT_WINDOW, DEFAULT_THRESHOLD);
      if note.Some? {
        conversation := conversation + [SystemNote(note.value)];
      }
      assert conversation == old(conversation) + NoteMessages(w, old(conversation));
      requests := requests + [conversation];
      var content, calls := Stream(reply);
      if reply.error.Some? {
        Emit(FError(reply.error.value));
        return Broken;
      }
      if calls == [] {
        return Answered;
      }
      conversation := conversation + [AssistantCalls(content, calls)];
      status := ExecuteCalls(w, calls);
    }

    /** `_run`. */
    method Drive(w: World, maxIter: int) returns (status: Status)
      requires Valid() && frames == [] && requests == [] && executed == 0
      modifies this
      ensures Valid()
      ensures Snapshot(status) == ToolLoop.Drive(w, old(conversation), maxIter)
    {
      hide Round, Valid;
      var iteration := 0;
      status := Going;
      while iteration < maxIter && status == Going
        invariant 0 <= iteration && Valid()
        invariant Rounds(w, Snapshot(status), iteration, maxIter) == Rounds(w, old(Snapshot(Going)), 0, maxIter)
        decreases maxIter - iteration
      {
        status := OneRound(w, w.reply(iteration));
        iteration := iteration + 1;
      }
      if status == Going || status == Answered {
        Emit(FDone);
      }
    }
  }

  lemma NothingAssembled()
    ensures Assemble([]) == []
  {
  }
}
