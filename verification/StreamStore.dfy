/** Durability of a chat stream: the driver queues chunks, a background worker
    writes them to the chunk table one by one (`ChunkPersister`). */
module StreamStore {
  import opened Text
  import opened SseStream

  datatype Row = Row(seqNo: nat, kind: Kind, payload: string)

  datatype Item = Put(row: Row) | Stop

  datatype Phase = Working | Flushing | Stopped

  /** `emitted` is what the driver has put so far, `settled` what the worker is done
      with; `failed` records that some insert raised and was logged away. */
  datatype State = State(emitted: seq<Row>, queue: seq<Item>, closed: bool, phase: Phase,
                         inFlight: Option<Row>, settled: seq<Row>, rows: seq<Row>, failed: bool)

  const START := State([], [], false, Working, None, [], [], false)

  /** `INSERT OR IGNORE` under the unique index on the sequence number. */
  function InsertOrIgnore(rows: seq<Row>, row: Row): seq<Row> {
    if exists i :: 0 <= i < |rows| && rows[i].seqNo == row.seqNo then rows else rows + [row]
  }

  datatype Step =
    | Emit(kind: Kind, payload: string)  // driver: put the next chunk
    | Close                              // leaving the context: put the stop mark
    | Take                               // worker: take the head of the queue
    | Insert                             // worker: the insert commits
    | InsertFails                        // worker: the insert raises
    | Finish                             // worker: flushed and empty

  predicate Enabled(s: State, step: Step) {
    match step
    case Emit(_, _) => !s.closed
    case Close => !s.closed
    case Take => s.phase != Stopped && s.inFlight == None && s.queue != []
    case Insert => s.inFlight.Some?
    case InsertFails => s.inFlight.Some?
    case Finish => s.phase == Flushing && s.inFlight == None && s.queue == []
  }

  function Next(s: State, step: Step): State
    requires Enabled(s, step)
  {
    match step
    case Emit(kind, payload) =>
      var row := Row(|s.emitted|, kind, payload);
      s.(emitted := s.emitted + [row], queue := s.queue + [Put(row)])
    case Close => s.(queue := s.queue + [Stop], closed := true)
    case Take =>
      (match s.queue[0]
       case Put(row) => s.(queue := s.queue[1..], inFlight := Some(row))
       case Stop => s.(queue := s.queue[1..], phase := Flushing))
    case Insert => s.(rows := InsertOrIgnore(s.rows, s.inFlight.value), inFlight := None,
                      settled := s.settled + [s.inFlight.value])
    case InsertFails => s.(inFlight := None, failed := true, settled := s.settled + [s.inFlight.value])
    case Finish => s.(phase := Stopped)
  }

  // ---- What every interleaving keeps ---------------------------------------------------

  function Puts(queue: seq<Item>): seq<Row> {
    if queue == [] then []
    else (match queue[0] case Put(row) => [row] case Stop => []) + Puts(queue[1..])
  }

  /** Emitted and not yet written, in order. */
  function Pending(s: State): seq<Row> {
    (match s.inFlight case Some(row) => [row] case None => []) + Puts(s.queue)
  }

  ghost predicate Increasing(rows: seq<Row>) {
    forall i, j :: 0 <= i < j < |rows| ==> rows[i].seqNo < rows[j].seqNo
  }

  /** Rows are settled chunks, in order. */
  ghost predicate RowsFrom(rows: seq<Row>, settled: seq<Row>) {
    && Increasing(rows)
    && forall i :: 0 <= i < |rows| ==>
         rows[i].seqNo < |settled| && settled[rows[i].seqNo] == rows[i]
  }

  ghost predicate QueueOk(s: State) {
    && (s.closed && s.phase == Working ==>
          s.queue != [] && s.queue[|s.queue| - 1] == Stop && Stop !in s.queue[..|s.queue| - 1])
    && (!s.closed ==> s.phase == Working && Stop !in s.queue)
    && (s.phase != Working ==> s.queue == [] && s.inFlight == None)
  }

  ghost predicate Numbered(emitted: seq<Row>) {
    forall i :: 0 <= i < |emitted| ==> emitted[i].seqNo == i
  }

  ghost predicate Inv(s: State) {
    && Numbered(s.emitted)
    && QueueOk(s)
    && s.emitted == s.settled + Pending(s)
    && RowsFrom(s.rows, s.settled)
    && (!s.failed ==> s.rows == s.settled)
  }

  lemma {:induction false} PutsSnoc(queue: seq<Item>, item: Item)
    ensures Puts(queue + [item]) == Puts(queue) + match item case Put(row) => [row] case Stop => []
  {
    if queue == [] {
      assert queue + [item] == [item];
      assert [item][1..] == [];
    } else {
      var last := match item case Put(row) => [row] case Stop => [];
      var first := match queue[0] case Put(row) => [row] case Stop => [];
      assert (queue + [item])[1..] == queue[1..] + [item];
      PutsSnoc(queue[1..], item);
      assert first + (Puts(queue[1..]) + last) == first + Puts(queue[1..]) + last;
    }
  }

  lemma StepKeepsInv(s: State, step: Step)
    requires Inv(s) && Enabled(s, step)
    ensures Inv(Next(s, step))
    ensures s.rows <= Next(s, step).rows && s.emitted <= Next(s, step).emitted
  {
    match step
    case Emit(kind, payload) => PutKeepsInv(s, kind, payload);
    case Close => CloseKeepsInv(s);
    case Take => TakeKeepsInv(s);
    case Insert => InsertKeepsInv(s);
    case InsertFails => SettleMoves(s);
    case Finish =>
  }

  lemma PutKeepsInv(s: State, kind: Kind, payload: string)
    requires Inv(s) && !s.closed
    ensures Inv(Next(s, Emit(kind, payload)))
  {
    hide Puts, RowsFrom;
    var row := Row(|s.emitted|, kind, payload);
    var s1 := Next(s, Emit(kind, payload));
    PutsSnoc(s.queue, Put(row));
    assert Pending(s1) == Pending(s) + [row];
    assert s.settled + (Pending(s) + [row]) == s.settled + Pending(s) + [row];
  }

  lemma CloseKeepsInv(s: State)
    requires Inv(s) && !s.closed
    ensures Inv(Next(s, Close))
  {
    hide Puts, RowsFrom, Numbered;
    var s1 := Next(s, Close);
    PutsSnoc(s.queue, Stop);
    assert Puts(s.queue) + [] == Puts(s.queue);
    assert s1.queue[..|s1.queue| - 1] == s.queue;
  }

  lemma TakeKeepsInv(s: State)
    requires Inv(s) && Enabled(s, Take)
    ensures Inv(Next(s, Take))
  {
    hide RowsFrom, Numbered;
    var s1 := Next(s, Take);
    var head, last := s.queue[0], |s.queue| - 1;
    assert head in s.queue;
    assert last > 0 ==> s.queue[..last][0] == head;
    if head == Stop {
      assert s1.queue == [];
    } else {
      assert [head.row] + Puts(s.queue[1..]) == Puts(s.queue);
      if s.closed {
        assert last > 0;
        assert s1.queue[..last - 1] == s.queue[..last][1..];
      }
    }
    assert Pending(s1) == Pending(s);
  }

  lemma SettleMoves(s: State)
    requires Inv(s) && s.inFlight.Some?
    ensures s.emitted == s.settled + [s.inFlight.value] + Puts(s.queue)
    ensures RowsFrom(s.rows, s.settled + [s.inFlight.value])
  {
    assert s.settled + ([s.inFlight.value] + Puts(s.queue)) == s.settled + [s.inFlight.value] + Puts(s.queue);
  }

  /** The worker writes the oldest pending chunk, which is new to the table. */
  lemma InsertKeepsInv(s: State)
    requires Inv(s) && Enabled(s, Insert)
    ensures Inv(Next(s, Insert)) && s.rows <= Next(s, Insert).rows
  {
    hide Puts;
    var row := s.inFlight.value;
    SettleMoves(s);
    assert s.emitted[|s.settled|] == row;
    assert Next(s, Insert).rows == s.rows + [row];
  }

  /** Some step leads from the `i`-th state to the next. */
  ghost predicate StepsAt(trace: seq<State>, i: nat)
    requires i + 1 < |trace|
  {
    exists step :: Enabled(trace[i], step) && trace[i + 1] == Next(trace[i], step)
  }

  ghost predicate IsExecution(trace: seq<State>) {
    && trace != [] && trace[0] == START
    && forall i: nat :: i + 1 < |trace| ==> StepsAt(trace, i)
  }

  /** For every interleaving of the driver and the worker: the table holds emitted
      chunks in order, an exact prefix of them unless an insert failed, and nothing
      else is waiting than the rest; a worker that stopped has written them all. */
  lemma {:induction false} RowsArePrefix(trace: seq<State>, i: nat)
    requires IsExecution(trace) && i < |trace|
    ensures Inv(trace[i])
    ensures !trace[i].failed ==> trace[i].rows <= trace[i].emitted
    ensures !trace[i].failed && trace[i].phase == Stopped ==> trace[i].rows == trace[i].emitted
  {
    hide Next, Enabled, Numbered, RowsFrom;
    if i == 0 {
      StartOk();
    } else {
      RowsArePrefix(trace, i - 1);
      assert StepsAt(trace, i - 1);
      var step :| Enabled(trace[i - 1], step) && trace[i] == Next(trace[i - 1], step);
      StepKeepsInv(trace[i - 1], step);
    }
    if trace[i].phase == Stopped {
      assert Puts(trace[i].queue) == [];
    }
  }

  lemma StartOk()
    ensures Inv(START)
  {
  }

  /** The table only grows at its end. */
  lemma {:induction false} RowsGrow(trace: seq<State>, i: nat, j: nat)
    requires IsExecution(trace) && i <= j < |trace|
    ensures trace[i].rows <= trace[j].rows && trace[i].emitted <= trace[j].emitted
    decreases j
  {
    hide IsExecution;
    if i < j {
      RowsGrow(trace, i, j - 1);
      RowsGrowOnce(trace, j - 1);
      PrefixOfPrefix(trace[i].rows, trace[j - 1].rows, trace[j].rows);
      PrefixOfPrefix(trace[i].emitted, trace[j - 1].emitted, trace[j].emitted);
    }
  }

  lemma RowsGrowOnce(trace: seq<State>, i: nat)
    requires IsExecution(trace) && i + 1 < |trace|
    ensures trace[i].rows <= trace[i + 1].rows && trace[i].emitted <= trace[i + 1].emitted
  {
    hide Next, Enabled, Inv;
    RowsArePrefix(trace, i);
    assert StepsAt(trace, i);
    var step :| Enabled(trace[i], step) && trace[i + 1] == Next(trace[i], step);
    StepKeepsInv(trace[i], step);
  }

  lemma PrefixOfPrefix(a: seq<Row>, b: seq<Row>, c: seq<Row>)
    requires a <= b <= c
    ensures a <= c
  {
  }
}
