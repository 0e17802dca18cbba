/** `ChunkPersister` as an object: the queue it owns, the table it writes, and the
    loop of its background worker. */
module ChunkPersister {
  import opened Text
  import opened SseStream
  import opened StreamStore

  /** The worker running until it waits on an empty queue or stops. `inserts` says
      which inserts commit. */
  function Work(s: State, inserts: seq<bool>): State
    requires s.inFlight == None && s.phase != Stopped
    requires |inserts| >= |s.queue|
    decreases |s.queue|
  {
    if s.queue == [] then
      if s.phase == Flushing then Next(s, Finish) else s
    else
      var taken := Next(s, Take);
      if taken.inFlight.Some? then
        Work(Next(taken, if inserts[0] then Insert else InsertFails), inserts[1..])
      else Work(taken, inserts[1..])
  }

  class Persister {
    var queue: seq<Item>
    var rows: seq<Row>
    var phase: Phase
    ghost var emitted: seq<Row>
    ghost var settled: seq<Row>
    ghost var closed: bool
    ghost var failed: bool

    /** Entering the context starts the worker on an empty table. */
    constructor ()
      ensures Contents() == START
    {
      queue, rows, phase := [], [], Working;
      emitted, settled, closed, failed := [], [], false, false;
    }

    ghost function Contents(): State
      reads this
    {
      State(emitted, queue, closed, phase, None, settled, rows, failed)
    }

    method PutChunk(seqNo: nat, kind: Kind, payload: string)
      requires !closed && seqNo == |emitted|
      modifies this
      ensures Contents() == Next(old(Contents()), Emit(kind, payload))
    {
      queue := queue + [Put(Row(seqNo, kind, payload))];
      emitted := emitted + [Row(seqNo, kind, payload)];
    }

    method Leave()
      requires !closed
      modifies this
      ensures Contents() == Next(old(Contents()), Close)
    {
      queue := queue + [Stop];
      closed := true;
    }

    /** `persist_chunk`: insert or ignore; an exception is logged and swallowed. */
    method Persist(row: Row, commits: bool)
      modifies this
      ensures Contents() == Next(old(Contents()).(inFlight := Some(row)), if commits then Insert else InsertFails)
      ensures rows ==
        if !commits || exists r :: r in old(rows) && r.seqNo == row.seqNo then old(rows) else old(rows) + [row]
    {
      if commits {
        if !exists i :: 0 <= i < |rows| && rows[i].seqNo == row.seqNo {
          rows := rows + [row];
        }
      } else {
        failed := true;
      }
      settled := settled + [row];
    }

    /** `_drain`: persist until the stop mark, then what is left behind it. */
    method Drain(inserts: seq<bool>)
      requires phase == Working && |inserts| >= |queue|
      modifies this
      ensures Contents() == Work(old(Contents()), inserts)
    {
      hide Work, InsertOrIgnore;
      ghost var start := Contents();
      var k := 0;
      while queue != []
        invariant 0 <= k <= |inserts| && |inserts[k..]| >= |queue| && phase == Working
        invariant Work(Contents(), inserts[k..]) == Work(start, inserts)
        decreases |queue|
      {
        var item := queue[0];
        WorkTurn(Contents(), inserts[k..]);
        assert inserts[k..][1..] == inserts[k + 1..];
        queue := queue[1..];
        k := k + 1;
        if item == Stop {
          phase := Flushing;
          Flush(inserts[k..]);
          return;
        }
        Persist(item.row, inserts[k - 1]);
      }
      WorkTurn(Contents(), inserts[k..]);
    }

    /** The worker after the stop mark. */
    method Flush(inserts: seq<bool>)
      requires phase == Flushing && |inserts| >= |queue|
      modifies this
      ensures Contents() == Work(old(Contents()), inserts)
    {
      hide Work, InsertOrIgnore;
      ghost var start := Contents();
      var k := 0;
      while queue != []
        invariant 0 <= k <= |inserts| && |inserts[k..]| >= |queue| && phase == Flushing
        invariant Work(Contents(), inserts[k..]) == Work(start, inserts)
        decreases |queue|
      {
        var remaining := queue[0];
        WorkTurn(Contents(), inserts[k..]);
        assert inserts[k..][1..] == inserts[k + 1..];
        queue := queue[1..];
        k := k + 1;
        if remaining != Stop {
          Persist(remaining.row, inserts[k - 1]);
        }
      }
      WorkTurn(Contents(), inserts[k..]);
      phase := Stopped;
    }
  }

  /** One turn of the worker. */
  lemma WorkTurn(s: State, inserts: seq<bool>)
    requires s.inFlight == None && s.phase != Stopped && |inserts| >= |s.queue|
    ensures s.queue == [] && s.phase == Working ==> Work(s, inserts) == s
    ensures s.queue == [] && s.phase == Flushing ==> Work(s, inserts) == s.(phase := Stopped)
    ensures s.queue != [] && s.queue[0] == Stop ==>
      Work(s, inserts) == Work(s.(queue := s.queue[1..], phase := Flushing), inserts[1..])
    ensures s.queue != [] && s.queue[0].Put? ==>
      Work(s, inserts) == Work(Next(s.(queue := s.queue[1..], inFlight := Some(s.queue[0].row)),
                                    if inserts[0] then Insert else InsertFails), inserts[1..])
  {
  }

  /** A worker whose inserts all commit leaves the table equal to everything
      emitted once the context has been left. */
  lemma {:induction false} WorkWritesEverything(s: State, inserts: seq<bool>)
    requires Inv(s) && s.inFlight == None && s.phase != Stopped && |inserts| >= |s.queue|
    requires !s.failed && forall i :: 0 <= i < |inserts| ==> inserts[i]
    ensures Inv(Work(s, inserts)) && Work(s, inserts).emitted == s.emitted
    ensures Work(s, inserts).rows == s.emitted
    ensures s.closed ==> Work(s, inserts).phase == Stopped
    decreases |s.queue|
  {
    hide Inv;
    if s.queue == [] {
      EmptyQueue(s);
      if s.phase == Flushing {
        StepKeepsInv(s, Finish);
      }
    } else {
      var taken := Next(s, Take);
      StepKeepsInv(s, Take);
      if taken.inFlight.Some? {
        StepKeepsInv(taken, Insert);
        WorkWritesEverything(Next(taken, Insert), inserts[1..]);
      } else {
        WorkWritesEverything(taken, inserts[1..]);
      }
    }
  }

  lemma EmptyQueue(s: State)
    requires Inv(s) && s.queue == [] && s.inFlight == None && !s.failed
    ensures s.rows == s.emitted && (s.closed ==> s.phase != Working)
  {
  }
}
