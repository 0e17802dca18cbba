/** Resuming a chat stream: replay what the table holds, then poll for more
    (`resume_stream.tail`). Each query sees the table as it is at that moment. */
module StreamResume {
  import opened Text
  import opened SseStream
  import opened StreamStore

  type View = seq<Row>

  /** `SELECT ... WHERE seq > :seq ORDER BY seq`. */
  function Above(view: View, after: int): (r: seq<Row>)
    ensures |r| <= |view|
  {
    if view == [] then []
    else if view[0].seqNo > after then [view[0]] + Above(view[1..], after)
    else Above(view[1..], after)
  }

  predicate HasDone(rows: seq<Row>) {
    exists i :: 0 <= i < |rows| && rows[i].kind == Done
  }

  /** `SELECT MAX(seq)`, over rows that come in increasing order. */
  function MaxSeq(view: View): Option<nat> {
    if view == [] then None else Some(view[|view| - 1].seqNo)
  }

  datatype Delivery = Delivery(rows: seq<Row>, finished: bool)

  /** The rows of one poll up to and including a `done`. */
  function UpToDone(rows: seq<Row>): Delivery {
    if rows == [] then Delivery([], false)
    else if rows[0].kind == Done then Delivery([rows[0]], true)
    else
      var more := UpToDone(rows[1..]);
      Delivery([rows[0]] + more.rows, more.finished)
  }

  function LastSeen(rows: seq<Row>, before: int): int {
    if rows == [] then before else rows[|rows| - 1].seqNo
  }

  /** Tail mode from `lastSeen`, over the tables the polls find. */
  function Poll(polls: seq<View>, lastSeen: int): Delivery {
    if polls == [] then Delivery([], false)
    else
      var got := UpToDone(Above(polls[0], lastSeen));
      if got.finished then got
      else
        var more := Poll(polls[1..], LastSeen(got.rows, lastSeen));
        Delivery(got.rows + more.rows, more.finished)
  }

  /** What a client that resumes after `start` is sent: the replay query sees
      `replay`, the MAX query `atMax`, the polls `polls`. */
  function Resumed(start: int, replay: View, atMax: View, polls: seq<View>): Delivery {
    var first := Above(replay, start);
    if HasDone(first) then Delivery(first, true)
    else
      var more := Poll(polls, match MaxSeq(atMax) case None => start case Some(m) => m);
      Delivery(first + more.rows, more.finished)
  }

  /** Sending the rows of one poll; a `done` ends the stream at once. */
  method SendNew(found: seq<Row>, before: int) returns (sent: seq<Row>, lastSeen: int, finished: bool)
    ensures Delivery(sent, finished) == UpToDone(found)
    ensures lastSeen == LastSeen(sent, before)
  {
    hide UpToDone;
    sent, lastSeen, finished := [], before, false;
    for i := 0 to |found|
      invariant !finished && lastSeen == LastSeen(sent, before)
      invariant UpToDone(found) == Delivery(sent + UpToDone(found[i..]).rows, UpToDone(found[i..]).finished)
    {
      UpToDoneTurn(found[i..]);
      assert found[i..][1..] == found[i + 1..];
      ghost var more := UpToDone(found[i + 1..]).rows;
      assert sent + ([found[i]] + more) == sent + [found[i]] + more;
      lastSeen := found[i].seqNo;
      sent := sent + [found[i]];
      if found[i].kind == Done {
        finished := true;
        return;
      }
    }
    UpToDoneTurn([]);
    assert sent + [] == sent;
  }

  lemma UpToDoneTurn(rows: seq<Row>)
    ensures rows == [] ==> UpToDone(rows) == Delivery([], false)
    ensures rows != [] && rows[0].kind == Done ==> UpToDone(rows) == Delivery([rows[0]], true)
    ensures rows != [] && rows[0].kind != Done ==>
      UpToDone(rows) == Delivery([rows[0]] + UpToDone(rows[1..]).rows, UpToDone(rows[1..]).finished)
  {
  }

  /** The replay query's rows are all sent, a `done` among them or not. */
  method SendReplay(rows: seq<Row>) returns (sent: seq<Row>, doneSeen: bool)
    ensures sent == rows && doneSeen == HasDone(rows)
  {
    sent, doneSeen := [], false;
    for i := 0 to |rows|
      invariant sent == rows[..i] && doneSeen == HasDone(rows[..i])
    {
      assert rows[..i + 1] == rows[..i] + [rows[i]];
      HasDoneSnoc(rows[..i], rows[i]);
      sent := sent + [rows[i]];
      if rows[i].kind == Done {
        doneSeen := true;
      }
    }
    assert rows[..|rows|] == rows;
  }

  method Tail(start: int, replay: View, atMax: View, polls: seq<View>)
    returns (sent: seq<Row>, finished: bool)
    ensures Delivery(sent, finished) == Resumed(start, replay, atMax, polls)
  {
    hide Above, UpToDone, HasDone, Poll;
    sent, finished := SendReplay(Above(replay, start));
    if finished {
      return;
    }
    ghost var first := sent;
    var lastSeen := start;
    var max := MaxSeq(atMax);
    if max.Some? {
      lastSeen := max.value;
    }
    ghost var tail: seq<Row>, from := [], lastSeen;
    for k := 0 to |polls|
      invariant !finished && sent == first + tail
      invariant Poll(polls, from) == Delivery(tail + Poll(polls[k..], lastSeen).rows,
                                              Poll(polls[k..], lastSeen).finished)
    {
      assert polls[k..][1..] == polls[k + 1..];
      PollTurn(polls[k..], lastSeen);
      var found;
      found, lastSeen, finished := SendNew(Above(polls[k], lastSeen), lastSeen);
      ghost var more := Poll(polls[k + 1..], lastSeen).rows;
      assert tail + (found + more) == tail + found + more;
      assert first + (tail + found) == sent + found;
      tail := tail + found;
      sent := sent + found;
      if finished {
        return;
      }
    }
    assert polls[|polls|..] == [];
    NoPolls(lastSeen);
    assert tail + [] == tail;
  }

  lemma HasDoneSnoc(rows: seq<Row>, row: Row)
    ensures HasDone(rows + [row]) <==> HasDone(rows) || row.kind == Done
  {
    var all := rows + [row];
    if HasDone(rows) {
      var i :| 0 <= i < |rows| && rows[i].kind == Done;
      assert all[i].kind == Done;
    }
    if row.kind == Done {
      assert all[|rows|].kind == Done;
    }
  }

  // ---- What is delivered, in terms of the final table -----------------------------------

  /** The driver emits `done` last, if at all. */
  ghost predicate DoneLast(rows: seq<Row>) {
    forall i :: 0 <= i < |rows| - 1 ==> rows[i].kind != Done
  }

  /** How many rows have a sequence number of at most `after`. */
  function Cut(view: View, after: int): (r: nat)
    ensures r <= |view|
  {
    if view == [] || view[0].seqNo > after then 0 else 1 + Cut(view[1..], after)
  }

  function Min(a: nat, b: nat): nat { if a < b then a else b }
  function Max(a: nat, b: nat): nat { if a > b then a else b }

  lemma {:induction false} CutSplits(view: View, after: int, i: nat)
    requires Increasing(view) && i < |view|
    ensures i < Cut(view, after) <==> view[i].seqNo <= after
  {
    if i > 0 && view[0].seqNo <= after {
      CutSplits(view[1..], after, i - 1);
    }
  }

  lemma CutAtRow(view: View, n: nat)
    requires Increasing(view) && 0 < n <= |view|
    ensures Cut(view, view[n - 1].seqNo) == n
  {
    var s := view[n - 1].seqNo;
    CutSplits(view, s, n - 1);
    if n < |view| {
      CutSplits(view, s, n);
    }
  }

  lemma AboveTurn(view: View, after: int)
    requires view != []
    ensures Above(view, after) == (if view[0].seqNo > after then [view[0]] else []) + Above(view[1..], after)
  {
  }

  lemma CutTurn(view: View, after: int)
    requires Increasing(view) && view != []
    ensures Cut(view, after) == if view[0].seqNo > after then 0 else 1 + Cut(view[1..], after)
    ensures view[0].seqNo > after ==> Cut(view[1..], after) == 0
    ensures Increasing(view[1..])
  {
  }

  /** A query on an earlier table, in terms of the final one. */
  lemma {:induction false} AbovePrefix(view: View, n: nat, after: int)
    requires Increasing(view) && n <= |view|
    ensures Above(view[..n], after) == view[Min(Cut(view, after), n)..n]
    decreases n
  {
    if n > 0 {
      hide Above, Cut, Increasing;
      var rest := view[1..];
      AboveTurn(view[..n], after);
      CutTurn(view, after);
      AbovePrefix(rest, n - 1, after);
      assert view[..n][1..] == rest[..n - 1];
      var c := Cut(rest, after);
      if view[0].seqNo > after {
        assert [view[0]] + rest[0..n - 1] == view[0..n];
      } else {
        assert rest[Min(c, n - 1)..n - 1] == view[Min(c + 1, n)..n];
      }
    }
  }

  lemma {:induction false} UpToDoneWhole(rows: seq<Row>)
    requires DoneLast(rows)
    ensures UpToDone(rows) == Delivery(rows, rows != [] && rows[|rows| - 1].kind == Done)
  {
    if |rows| > 1 {
      UpToDoneWhole(rows[1..]);
      assert [rows[0]] + rows[1..] == rows;
    }
  }

  /** The polls see ever longer prefixes of the final table. */
  ghost predicate Growing(polls: seq<View>, view: View) {
    && (forall i :: 0 <= i < |polls| ==> polls[i] <= view)
    && (forall i, j :: 0 <= i < j < |polls| ==> |polls[i]| <= |polls[j]|)
  }

  /** One poll that finds the first `n` rows of the final table. */
  lemma OnePoll(view: View, n: nat, lastSeen: int)
    requires Increasing(view) && DoneLast(view) && n <= |view|
    ensures var lo := Min(Cut(view, lastSeen), n);
            && UpToDone(Above(view[..n], lastSeen))
               == Delivery(view[lo..n], lo < n && view[n - 1].kind == Done)
            && Cut(view, LastSeen(view[lo..n], lastSeen)) == Max(Cut(view, lastSeen), n)
  {
    hide Cut, Above, Increasing;
    var lo := Min(Cut(view, lastSeen), n);
    AbovePrefix(view, n, lastSeen);
    var found := view[lo..n];
    forall i | 0 <= i < |found| - 1 ensures found[i].kind != Done {
      assert found[i] == view[lo + i];
    }
    UpToDoneWhole(found);
    if lo < n {
      assert found[|found| - 1] == view[n - 1];
      CutAtRow(view, n);
    }
  }

  lemma PollTurn(polls: seq<View>, lastSeen: int)
    requires polls != []
    ensures var got := UpToDone(Above(polls[0], lastSeen));
            var more := Poll(polls[1..], LastSeen(got.rows, lastSeen));
            Poll(polls, lastSeen) == if got.finished then got else Delivery(got.rows + more.rows, more.finished)
  {
    hide UpToDone, Above;
  }

  lemma NoPolls(lastSeen: int)
    ensures Poll([], lastSeen) == Delivery([], false)
  {
  }

  lemma LaterPollsGrow(polls: seq<View>, view: View)
    requires Growing(polls, view) && |polls| > 1 && polls[|polls| - 1] == view
    ensures Growing(polls[1..], view) && polls[1..][|polls| - 2] == view
  {
  }

  lemma JoinParts(view: View, c: nat, n: nat)
    requires c <= |view| && n <= |view|
    ensures view[Min(c, n)..n] + view[Max(c, n)..] == view[c..]
  {
  }

  lemma {:induction false} PollsDeliverRest(polls: seq<View>, view: View, lastSeen: int)
    requires Increasing(view) && DoneLast(view)
    requires Growing(polls, view) && polls != [] && polls[|polls| - 1] == view
    ensures Poll(polls, lastSeen).rows == view[Cut(view, lastSeen)..]
    decreases |polls|
  {
    var c, n := Cut(view, lastSeen), |polls[0]|;
    assert polls[0] == view[..n];
    assert c < n && view[n - 1].kind == Done ==> n == |view|;
    hide Cut, Above, UpToDone, Increasing, Poll, Growing, DoneLast, Min, Max;
    PollTurn(polls, lastSeen);
    OnePoll(view, n, lastSeen);
    JoinParts(view, c, n);
    var found := view[Min(c, n)..n];
    if c < n && view[n - 1].kind == Done {
      assert Max(c, n) == n && view[n..] == [];
      assert found + [] == found;
    } else if |polls| == 1 {
      assert polls[1..] == [];
      NoPolls(LastSeen(found, lastSeen));
      assert n == |view| && Max(c, n) == n && view[n..] == [];
    } else {
      LaterPollsGrow(polls, view);
      PollsDeliverRest(polls[1..], view, LastSeen(found, lastSeen));
    }
  }

  /** The reader's view of the table over time. */
  ghost predicate Reads(replay: View, atMax: View, polls: seq<View>, view: View) {
    && replay <= atMax <= view
    && Growing(polls, view)
    && polls != [] && polls[|polls| - 1] == view
  }

  /** Where tail mode starts: behind the last row the MAX query saw. */
  function TailFrom(view: View, start: int, atMax: View): nat {
    if atMax == [] then Cut(view, start) else |atMax|
  }

  /** Exactly which rows are sent, for every timing of the reader's queries. */
  lemma DeliveredExactly(start: int, replay: View, atMax: View, polls: seq<View>, view: View)
    requires Increasing(view) && DoneLast(view) && Reads(replay, atMax, polls, view)
    ensures TailFrom(view, start, atMax) <= |view|
    ensures Resumed(start, replay, atMax, polls).rows
         == view[Min(Cut(view, start), |replay|)..|replay|] + view[TailFrom(view, start, atMax)..]
  {
    hide Poll, UpToDone, Increasing, Cut, Above, Growing;
    var first := Above(replay, start);
    var a, k := Cut(view, start), |replay|;
    assert replay == view[..k] && atMax == view[..|atMax|];
    AbovePrefix(view, k, start);
    if HasDone(first) {
      var i :| 0 <= i < |first| && first[i].kind == Done;
      assert first[i] == view[Min(a, k) + i];
      assert k == |view|;
      assert view[|atMax|..] == [];
      assert first + [] == first;
    } else if atMax == [] {
      PollsDeliverRest(polls, view, start);
    } else {
      PollsDeliverRest(polls, view, atMax[|atMax| - 1].seqNo);
      CutAtRow(view, |atMax|);
    }
  }

  /** No row is ever sent twice, and the sequence numbers strictly increase. */
  lemma DeliveredIncreases(start: int, replay: View, atMax: View, polls: seq<View>, view: View)
    requires Increasing(view) && DoneLast(view) && Reads(replay, atMax, polls, view)
    ensures Increasing(Resumed(start, replay, atMax, polls).rows)
  {
    hide Resumed;
    DeliveredExactly(start, replay, atMax, polls, view);
    var a, k, b := Min(Cut(view, start), |replay|), |replay|, TailFrom(view, start, atMax);
    var rows := view[a..k] + view[b..];
    assert k <= b;
    TwoSlicesIncrease(view, a, k, b);
    assert rows == Resumed(start, replay, atMax, polls).rows;
  }

  lemma TwoSlicesIncrease(view: View, a: nat, k: nat, b: nat)
    requires Increasing(view) && a <= k <= b <= |view|
    ensures Increasing(view[a..k] + view[b..])
  {
    var rows := view[a..k] + view[b..];
    forall i, j | 0 <= i < j < |rows| ensures rows[i].seqNo < rows[j].seqNo {
      var i1 := if i < k - a then a + i else b + (i - (k - a));
      var j1 := if j < k - a then a + j else b + (j - (k - a));
      assert rows[i] == view[i1];
      assert rows[j] == view[j1];
      assert i1 < j1;
    }
  }

  /** The client gets exactly the rows it asked for, those after `start`, if and only
      if the MAX query found an empty table, or found exactly the rows the replay
      query had or the client already held: a row inserted between the two queries
      is lost, and a client ahead of the table is sent old rows again. */
  lemma DeliveredCompleteIff(start: int, replay: View, atMax: View, polls: seq<View>, view: View)
    requires Increasing(view) && DoneLast(view) && Reads(replay, atMax, polls, view)
    ensures Resumed(start, replay, atMax, polls).rows == Above(view, start)
       <==> atMax == [] || |atMax| == Max(|replay|, Cut(view, start))
  {
    hide Resumed, Increasing;
    DeliveredExactly(start, replay, atMax, polls, view);
    AbovePrefix(view, |view|, start);
    assert view[..|view|] == view;
    var a, k, b := Cut(view, start), |replay|, TailFrom(view, start, atMax);
    assert Above(view, start) == view[a..];
    assert |view[Min(a, k)..k] + view[b..]| == k - Min(a, k) + |view| - b;
    if atMax == [] || |atMax| == Max(k, a) {
      assert view[Min(a, k)..k] + view[b..] == view[a..];
    }
  }

  // ---- When the stream ends ---------------------------------------------------------------

  lemma {:induction false} UpToDoneEnds(rows: seq<Row>)
    ensures UpToDone(rows).finished <==> HasDone(UpToDone(rows).rows)
  {
    if rows != [] && rows[0].kind != Done {
      UpToDoneEnds(rows[1..]);
      HasDoneAppend([rows[0]], UpToDone(rows[1..]).rows);
    } else if rows != [] {
      assert UpToDone(rows).rows[0].kind == Done;
    }
  }

  lemma HasDoneAppend(a: seq<Row>, b: seq<Row>)
    ensures HasDone(a + b) <==> HasDone(a) || HasDone(b)
  {
    if HasDone(a) {
      var i :| 0 <= i < |a| && a[i].kind == Done;
      assert (a + b)[i].kind == Done;
    }
    if HasDone(b) {
      var i :| 0 <= i < |b| && b[i].kind == Done;
      assert (a + b)[|a| + i].kind == Done;
    }
  }

  lemma {:induction false} PollEnds(polls: seq<View>, lastSeen: int)
    ensures Poll(polls, lastSeen).finished <==> HasDone(Poll(polls, lastSeen).rows)
    decreases |polls|
  {
    hide UpToDone, Above, HasDone, Poll;
    if polls == [] {
      NoPolls(lastSeen);
      NoneDone();
    } else {
      var got := UpToDone(Above(polls[0], lastSeen));
      PollTurn(polls, lastSeen);
      UpToDoneEnds(Above(polls[0], lastSeen));
      PollEnds(polls[1..], LastSeen(got.rows, lastSeen));
      HasDoneAppend(got.rows, Poll(polls[1..], LastSeen(got.rows, lastSeen)).rows);
    }
  }

  lemma NoneDone()
    ensures !HasDone([])
  {
  }

  /** A reader ends exactly when it has sent a `done`. */
  lemma ResumedEnds(start: int, replay: View, atMax: View, polls: seq<View>)
    ensures Resumed(start, replay, atMax, polls).finished <==> HasDone(Resumed(start, replay, atMax, polls).rows)
  {
    hide Above, HasDone, Poll;
    var from := match MaxSeq(atMax) case None => start case Some(m) => m;
    PollEnds(polls, from);
    HasDoneAppend(Above(replay, start), Poll(polls, from).rows);
  }

  lemma DoneInSlices(view: View, a: nat, k: nat, b: nat)
    requires DoneLast(view) && a <= k <= |view| && b <= |view|
    ensures HasDone(view[a..k] + view[b..])
       <==> view != [] && view[|view| - 1].kind == Done && ((a < k && k == |view|) || b < |view|)
  {
    var rows, n := view[a..k] + view[b..], |view|;
    if HasDone(rows) {
      var i :| 0 <= i < |rows| && rows[i].kind == Done;
      assert rows[i] == view[if i < k - a then a + i else b + (i - (k - a))];
    }
    if n > 0 && view[n - 1].kind == Done && a < k && k == n {
      assert rows[k - a - 1].kind == Done;
    }
    if n > 0 && view[n - 1].kind == Done && b < n {
      assert rows[|rows| - 1].kind == Done;
    }
  }

  /** A reader whose last poll finds `view` has ended if and only if the table ends with
      `done` and that row was still to come: after the cursor in the replay's table, or
      behind the last row the MAX query saw. */
  lemma FinishesIff(start: int, replay: View, atMax: View, polls: seq<View>, view: View)
    requires Increasing(view) && DoneLast(view) && Reads(replay, atMax, polls, view)
    ensures Resumed(start, replay, atMax, polls).finished
       <==> view != [] && view[|view| - 1].kind == Done
            && ((Cut(view, start) < |view| && |replay| == |view|) || TailFrom(view, start, atMax) < |view|)
  {
    hide Resumed, HasDone, Increasing, DoneLast, Cut, Growing;
    DeliveredExactly(start, replay, atMax, polls, view);
    ResumedEnds(start, replay, atMax, polls);
    DoneInSlices(view, Min(Cut(view, start), |replay|), |replay|, TailFrom(view, start, atMax));
  }

  /** A client that already holds the `done`, as one reconnecting with its number does,
      is kept waiting by any number of polls. */
  lemma CursorOnDoneNeverFinishes(view: View, polls: seq<View>)
    requires Increasing(view) && DoneLast(view) && view != [] && view[|view| - 1].kind == Done
    requires polls != [] && forall i :: 0 <= i < |polls| ==> polls[i] == view
    ensures !Resumed(view[|view| - 1].seqNo, view, view, polls).finished
  {
    var start := view[|view| - 1].seqNo;
    hide Resumed, Increasing, DoneLast, Cut;
    CutAtRow(view, |view|);
    FinishesIff(start, view, view, polls, view);
  }

  /** So is one whose `done` arrives between the replay and the MAX query. */
  lemma DoneBetweenQueriesIsLost(start: int, replay: View, view: View, polls: seq<View>)
    requires Increasing(view) && DoneLast(view) && view != [] && view[|view| - 1].kind == Done
    requires replay < view && polls != [] && forall i :: 0 <= i < |polls| ==> polls[i] == view
    ensures !Resumed(start, replay, view, polls).finished
  {
    hide Resumed, Increasing, DoneLast, Cut;
    FinishesIff(start, replay, view, polls, view);
  }

  // ---- Over every execution of driver and worker --------------------------------------------

  function PollsAt(trace: seq<State>, times: seq<nat>): (r: seq<View>)
    requires forall i :: 0 <= i < |times| ==> times[i] < |trace|
    ensures |r| == |times| && forall i :: 0 <= i < |r| ==> r[i] == trace[times[i]].rows
  {
    seq(|times|, i requires 0 <= i < |times| => trace[times[i]].rows)
  }

  /** Moments of the replay, MAX and poll queries. */
  ghost predicate Moments(trace: seq<State>, t0: nat, t1: nat, times: seq<nat>) {
    && t0 <= t1 && times != [] && t1 <= times[0]
    && (forall i, j :: 0 <= i < j < |times| ==> times[i] <= times[j])
    && (forall i :: 0 <= i < |times| ==> times[i] < |trace|)
  }

  lemma ReadsOverExecution(trace: seq<State>, t0: nat, t1: nat, times: seq<nat>)
    requires IsExecution(trace) && Moments(trace, t0, t1, times)
    ensures var view := trace[times[|times| - 1]].rows;
            Reads(trace[t0].rows, trace[t1].rows, PollsAt(trace, times), view) && Increasing(view)
  {
    hide IsExecution, Increasing, Inv;
    var last := times[|times| - 1];
    var polls := PollsAt(trace, times);
    forall i | 0 <= i < |polls| ensures polls[i] <= trace[last].rows {
      RowsGrow(trace, times[i], last);
    }
    forall i, j | 0 <= i < j < |polls| ensures |polls[i]| <= |polls[j]| {
      RowsGrow(trace, times[i], times[j]);
    }
    RowsGrow(trace, t0, t1);
    RowsGrow(trace, t1, last);
    RowsAreIncreasing(trace, last);
  }

  /** With the queries at any moments: numbers increase, and with both first queries on
      one snapshot of at least `start` rows every chunk after `start` up to the last poll
      is sent, no other. */
  lemma ResumeOverExecution(trace: seq<State>, start: int, t0: nat, t1: nat, times: seq<nat>)
    requires IsExecution(trace) && Moments(trace, t0, t1, times)
    requires DoneLast(trace[times[|times| - 1]].rows)
    ensures var view := trace[times[|times| - 1]].rows;
            var got := Resumed(start, trace[t0].rows, trace[t1].rows, PollsAt(trace, times)).rows;
            && Increasing(got)
            && (trace[t0].rows == trace[t1].rows && start < |trace[t1].rows| ==> got == Above(view, start))
  {
    hide Resumed, IsExecution, Increasing, DoneLast, Reads;
    var view, polls := trace[times[|times| - 1]].rows, PollsAt(trace, times);
    ReadsOverExecution(trace, t0, t1, times);
    DeliveredIncreases(start, trace[t0].rows, trace[t1].rows, polls, view);
    DeliveredCompleteIff(start, trace[t0].rows, trace[t1].rows, polls, view);
    ReadsPrefix(trace[t0].rows, trace[t1].rows, polls, view);
    CutAtMost(view, start);
  }

  lemma ReadsPrefix(replay: View, atMax: View, polls: seq<View>, view: View)
    requires Reads(replay, atMax, polls, view)
    ensures replay <= atMax <= view
  {
  }

  const ONE_CHUNK := Row(0, Delta, "x")

  /** Driver and worker up to the first chunk: put, taken, inserted. */
  function FirstChunk(): seq<State> {
    var s1 := Next(START, Emit(Delta, "x"));
    var s2 := s1.(queue := [], inFlight := Some(ONE_CHUNK));
    [START, s1, s2, s2.(inFlight := None, rows := [ONE_CHUNK], settled := [ONE_CHUNK])]
  }

  /** The first chunk of a stream, inserted between the two queries of a client that has
      nothing yet, is never sent. */
  lemma RowBetweenQueriesIsLost(polls: seq<View>)
    requires polls != [] && forall i :: 0 <= i < |polls| ==> polls[i] == [ONE_CHUNK]
    ensures IsExecution(FirstChunk())
    ensures FirstChunk()[2].rows == [] && FirstChunk()[3].rows == [ONE_CHUNK]
    ensures Resumed(-1, FirstChunk()[2].rows, FirstChunk()[3].rows, polls).rows == []
    ensures Above([ONE_CHUNK], -1) == [ONE_CHUNK]
  {
    var trace := FirstChunk();
    assert trace[1].queue == [Put(ONE_CHUNK)];
    assert trace[2] == Next(trace[1], Take);
    assert trace[3] == Next(trace[2], Insert);
    assert StepsAt(trace, 0) && StepsAt(trace, 1) && StepsAt(trace, 2);
    hide Resumed;
    assert Above([ONE_CHUNK][1..], -1) == [];
    DeliveredExactly(-1, [], [ONE_CHUNK], polls, [ONE_CHUNK]);
  }

  lemma RowsAreIncreasing(trace: seq<State>, i: nat)
    requires IsExecution(trace) && i < |trace|
    ensures Increasing(trace[i].rows)
  {
    RowsArePrefix(trace, i);
  }

  /** Numbers are at least positions, so at most `start + 1` rows are at or before it. */
  lemma CutAtMost(view: View, start: int)
    requires Increasing(view)
    ensures Cut(view, start) <= if start < 0 then 0 else start + 1
  {
    var c := Cut(view, start);
    if c > 0 {
      CutSplits(view, start, c - 1);
      NumbersGrow(view, c - 1);
    }
  }

  lemma {:induction false} NumbersGrow(view: View, i: nat)
    requires Increasing(view) && i < |view|
    ensures view[i].seqNo >= i
  {
    if i > 0 {
      NumbersGrow(view, i - 1);
    }
  }

  /** A stream that ended in an error never carries `done`, so a reader of it polls
      until the client goes away. */
  lemma {:induction false} NoDoneNeverFinishes(start: int, replay: View, atMax: View, polls: seq<View>)
    requires !HasDone(replay) && forall i :: 0 <= i < |polls| ==> !HasDone(polls[i])
    ensures !Resumed(start, replay, atMax, polls).finished
  {
    AboveHasNoDone(replay, start);
    PollNeverFinishes(polls, match MaxSeq(atMax) case None => start case Some(m) => m);
  }

  lemma {:induction false} AboveHasNoDone(view: View, after: int)
    requires !HasDone(view)
    ensures !HasDone(Above(view, after)) && !UpToDone(Above(view, after)).finished
  {
    if view != [] {
      forall i | 0 <= i < |view| - 1 ensures view[1..][i].kind != Done {
        assert view[i + 1].kind != Done;
      }
      AboveHasNoDone(view[1..], after);
      assert view[0].kind != Done;
      if view[0].seqNo > after {
        assert ([view[0]] + Above(view[1..], after))[1..] == Above(view[1..], after);
        forall i | 0 <= i < |Above(view, after)| ensures Above(view, after)[i].kind != Done {
          if i > 0 {
            assert Above(view, after)[i] == Above(view[1..], after)[i - 1];
          }
        }
      }
    }
  }

  lemma {:induction false} PollNeverFinishes(polls: seq<View>, lastSeen: int)
    requires forall i :: 0 <= i < |polls| ==> !HasDone(polls[i])
    ensures !Poll(polls, lastSeen).finished
    decreases |polls|
  {
    if polls != [] {
      AboveHasNoDone(polls[0], lastSeen);
      PollNeverFinishes(polls[1..], LastSeen(UpToDone(Above(polls[0], lastSeen)).rows, lastSeen));
    }
  }
}
