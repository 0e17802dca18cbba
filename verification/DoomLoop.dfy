/** The doom-loop detector: a corrective note when one tool call repeats within the
    recent window. */
module DoomLoop {
  import opened Text

  /** Parsed JSON. `json.dumps(.., sort_keys=True)` tells two values apart exactly
      when they differ here. */
  datatype Json =
    | JNull
    | JBool(b: bool)
    | JNum(literal: string)
    | JStr(s: string)
    | JArr(items: seq<Json>)
    | JObj(fields: map<string, Json>)

  datatype ToolCall = ToolCall(name: string, args: Json)

  /** The facts the note's text states. */
  datatype Note = Note(name: string, times: int, window: int)

  const DEFAULT_WINDOW := 8
  const DEFAULT_THRESHOLD := 3

  /** Python's `history[-window:]`, for every integer. */
  function Recent(history: seq<ToolCall>, window: int): seq<ToolCall> {
    if window > 0 then (if window < |history| then history[|history| - window..] else history)
    else if -window <= |history| then history[-window..]
    else []
  }

  function Needed(threshold: int): nat {
    if threshold < 1 then 1 else threshold
  }

  /** How often the call at position `i` has occurred by then. */
  function HitsAt(recent: seq<ToolCall>, i: nat): nat
    requires i < |recent|
  {
    multiset(recent[..i + 1])[recent[i]]
  }

  /** The first position at or after `i` whose call has then occurred often enough. */
  function Reached(recent: seq<ToolCall>, need: nat, i: nat): (r: Option<nat>)
    requires i <= |recent|
    ensures r.Some? ==> i <= r.value < |recent| && HitsAt(recent, r.value) >= need
    ensures forall j :: i <= j < |recent| && (r.Some? ==> j < r.value) ==> HitsAt(recent, j) < need
    decreases |recent| - i
  {
    hide HitsAt;
    if i == |recent| then None
    else if HitsAt(recent, i) >= need then Some(i)
    else Reached(recent, need, i + 1)
  }

  function NoteFor(history: seq<ToolCall>, window: int, threshold: int): Option<Note> {
    var recent := Recent(history, window);
    match Reached(recent, Needed(threshold), 0)
    case None => None
    case Some(j) => Some(Note(recent[j].name, HitsAt(recent, j), window))
  }

  method Detect(history: seq<ToolCall>, window: int, threshold: int) returns (note: Option<Note>)
    ensures note == NoteFor(history, window, threshold)
  {
    hide Reached, Recent;
    var recent := Recent(history, window);
    if |recent| < threshold {
      TooFew(recent, Needed(threshold));
      return None;
    }
    var counts: map<ToolCall, nat> := map[];
    for i := 0 to |recent|
      invariant forall call :: (if call in counts then counts[call] else 0) == multiset(recent[..i])[call]
      invariant Reached(recent, Needed(threshold), 0) == Reached(recent, Needed(threshold), i)
    {
      var call := recent[i];
      assert recent[..i + 1] == recent[..i] + [call];
      counts := counts[call := (if call in counts then counts[call] else 0) + 1];
      ReachedTurn(recent, Needed(threshold), i);
      if counts[call] >= threshold {
        return Some(Note(call.name, counts[call], window));
      }
    }
    ReachedTurn(recent, Needed(threshold), |recent|);
    return None;
  }

  lemma ReachedTurn(recent: seq<ToolCall>, need: nat, i: nat)
    requires i <= |recent|
    ensures i == |recent| ==> Reached(recent, need, i) == None
    ensures i < |recent| && HitsAt(recent, i) >= need ==> Reached(recent, need, i) == Some(i)
    ensures i < |recent| && HitsAt(recent, i) < need ==> Reached(recent, need, i) == Reached(recent, need, i + 1)
  {
    hide HitsAt;
  }

  lemma {:induction false} CountAtMost(calls: seq<ToolCall>, call: ToolCall)
    ensures multiset(calls)[call] <= |calls|
  {
    if calls != [] {
      var n := |calls| - 1;
      CountAtMost(calls[..n], call);
      assert calls == calls[..n] + [calls[n]];
    }
  }

  lemma TooFew(recent: seq<ToolCall>, need: nat)
    requires |recent| < need
    ensures Reached(recent, need, 0) == None
  {
    hide Reached;
    forall j | 0 <= j < |recent| ensures HitsAt(recent, j) < need {
      CountAtMost(recent[..j + 1], recent[j]);
    }
  }

  /** Before any position reaches the need, no call has occurred that often. */
  lemma {:induction false} BelowBefore(recent: seq<ToolCall>, need: nat, j: nat, call: ToolCall)
    requires need >= 1 && j <= |recent|
    requires forall i :: 0 <= i < j ==> HitsAt(recent, i) < need
    ensures multiset(recent[..j])[call] < need
  {
    if j > 0 {
      BelowBefore(recent, need, j - 1, call);
      assert HitsAt(recent, j - 1) < need;
      assert recent[..j - 1 + 1] == recent[..j - 1] + [recent[j - 1]];
    }
  }

  /** The count at the first position that reaches the need is exactly the need. */
  lemma ReachedExactly(recent: seq<ToolCall>, need: nat, j: nat)
    requires need >= 1 && j < |recent| && HitsAt(recent, j) >= need
    requires forall i :: 0 <= i < j ==> HitsAt(recent, i) < need
    ensures HitsAt(recent, j) == need
    ensures multiset(recent)[recent[j]] >= need
  {
    BelowBefore(recent, need, j, recent[j]);
    assert recent[..j + 1] == recent[..j] + [recent[j]];
    assert recent == recent[..j + 1] + recent[j + 1..];
  }

  /** The call at `j` is the first one to have occurred `need` times. */
  ghost predicate FirstToRepeat(recent: seq<ToolCall>, need: nat, j: nat) {
    && j < |recent|
    && HitsAt(recent, j) == need
    && forall i :: 0 <= i < j ==> HitsAt(recent, i) < need
  }

  /** A note is given exactly when some call occurs `threshold` times in the window;
      it reports exactly that number and names the call that gets there first. */
  lemma DetectsExactly(history: seq<ToolCall>, window: int, threshold: int)
    ensures var recent, need, note := Recent(history, window), Needed(threshold), NoteFor(history, window, threshold);
            && (note.Some? <==> exists call :: multiset(recent)[call] >= need)
            && (note.Some? <==> exists call :: call in recent && multiset(recent)[call] >= threshold)
            && (note.Some? ==>
                  exists j: nat :: FirstToRepeat(recent, need, j) && note == Some(Note(recent[j].name, need, window)))
            && (note.Some? ==> note.value.times == if threshold < 1 then 1 else threshold)
  {
    hide Recent, HitsAt, Reached;
    var recent, need := Recent(history, window), Needed(threshold);
    var r := Reached(recent, need, 0);
    assert forall call :: call in recent <==> multiset(recent)[call] >= 1;
    if r.Some? {
      ReachedExactly(recent, need, r.value);
      assert FirstToRepeat(recent, need, r.value);
    } else {
      forall call ensures multiset(recent)[call] < need {
        BelowBefore(recent, need, |recent|, call);
        assert recent[..|recent|] == recent;
      }
    }
  }
}
