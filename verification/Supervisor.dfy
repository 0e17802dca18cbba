/** The supervisor as it runs: retried transactions, one polling task, and the
    connection of a task's loop to the executions of `IngestionRuns`. */
module Supervisor {
  import opened Text
  import opened Ingestion
  import opened IngestionRuns

  /** What the database answers to one try of a transaction. */
  datatype Attempt = Committed | Busy | Refused

  const MAX_ATTEMPTS := 6

  /** A transaction takes effect when one of the first six tries commits and only
      busy answers came before it. */
  ghost predicate Succeeds(outcomes: seq<Attempt>) {
    exists k :: 0 <= k < MAX_ATTEMPTS && k < |outcomes| && outcomes[k] == Committed
             && forall j :: 0 <= j < k ==> outcomes[j] == Busy
  }

  /** `with_retry`: returns whether the operation committed, the number of tries
      and the sleeps in milliseconds between them. */
  method WithRetry(outcomes: seq<Attempt>) returns (ok: bool, tries: nat, slept: seq<nat>)
    requires |outcomes| >= MAX_ATTEMPTS
    ensures ok <==> Succeeds(outcomes)
    ensures 1 <= tries <= 6 && slept == [25, 50, 100, 200, 400][..tries - 1]
    ensures ok <==> outcomes[tries - 1] == Committed
    ensures !ok ==> outcomes[tries - 1] == Refused || tries == 6
    ensures forall i :: 0 <= i < tries - 1 ==> outcomes[i] == Busy
  {
    var delay := 25;
    slept := [];
    for attempt := 0 to MAX_ATTEMPTS
      invariant |slept| == attempt
      invariant forall i :: 0 <= i < attempt ==> outcomes[i] == Busy
      invariant attempt <= 5 && slept == [25, 50, 100, 200, 400][..attempt]
      invariant attempt < 5 ==> delay == [25, 50, 100, 200, 400][attempt]
      invariant attempt < MAX_ATTEMPTS
    {
      if outcomes[attempt] == Committed {
        return true, attempt + 1, slept;
      }
      if outcomes[attempt] != Busy || attempt == 5 {
        return false, attempt + 1, slept;
      }
      slept := slept + [delay];
      delay := if delay * 2 < 800 then delay * 2 else 800;
    }
    assert false;
  }

  const TERMINAL: seq<string> := ["succeeded", "failed", "cancelled", "completed", "errored", "error"]

  predicate IsTerminal(status: string) { Lower(status) in TERMINAL }

  datatype PollEvent =
    | CancelRequested
    | ShuttingDown
    | JobMissing
    | PollError
    | Polled(payload: Payload, outcomes: seq<Attempt>)

  datatype Exit = StillPolling | Stopped | Missing | TerminalStatus

  datatype TaskState = TaskState(db: Db, hub: seq<Update>, last: I64, exit: Exit)

  ghost predicate WellFormed(events: seq<PollEvent>) {
    forall i :: 0 <= i < |events| && events[i].Polled? ==> |events[i].outcomes| >= MAX_ATTEMPTS
  }

  /** One turn of the polling loop. */
  ghost function Turn(s: TaskState, run: RunId, event: PollEvent): TaskState {
    match event
    case CancelRequested => s.(exit := Stopped)
    case ShuttingDown => s.(exit := Stopped)
    case JobMissing => s.(exit := Missing)
    case PollError => s
    case Polled(p, outcomes) =>
      var exit := if IsTerminal(p.status) then TerminalStatus else StillPolling;
      if Succeeds(outcomes) then
        TaskState(Commit(s.db, run, p, s.last), s.hub + Announce(run, p, s.last), NextLast(p, s.last), exit)
      else s.(exit := exit)
  }

  ghost function Task(s: TaskState, run: RunId, events: seq<PollEvent>): TaskState
    decreases |events|
  {
    if events == [] || s.exit != StillPolling then s
    else Task(Turn(s, run, events[0]), run, events[1..])
  }

  /** The process-wide state the tasks share. */
  class Store {
    var runs: map<RunId, RunRow>
    var metrics: Table
    var hub: seq<Update>

    constructor ()
      ensures Contents() == Db(map[], map[]) && hub == []
    {
      runs, metrics, hub := map[], map[], [];
    }

    function Contents(): Db
      reads this
    {
      Db(runs, metrics)
    }

    /** `get_last_step`: the aggregate over the rows of the run, then COALESCE. */
    method GetLastStep(run: RunId) returns (step: I64)
      ensures step == LastStep(metrics, run)
    {
      var rows := metrics.Keys;
      var max: Option<I64> := None;
      ghost var seen: set<Key> := {};
      while rows != {}
        invariant seen + rows == metrics.Keys
        invariant max == None ==> forall k :: k in seen ==> k.run != run
        invariant max.Some? ==> exists k :: k in seen && k.run == run && k.step == max.value
        invariant max.Some? ==> forall k :: k in seen && k.run == run ==> k.step <= max.value
        decreases |rows|
      {
        var k :| k in rows;
        rows := rows - {k};
        seen := seen + {k};
        if k.run == run && (max == None || k.step > max.value) {
          assert k in seen;
          max := Some(k.step);
        }
      }
      step := match max case None => -1 case Some(m) => m;
      LastIsUnique(metrics, run, step);
    }

    /** `apply_update`: one retried transaction, then publication. */
    method ApplyUpdate(run: RunId, p: Payload, last: I64, outcomes: seq<Attempt>)
      returns (applied: bool, newLast: I64)
      requires |outcomes| >= MAX_ATTEMPTS
      modifies this
      ensures applied <==> Succeeds(outcomes)
      ensures applied ==>
        && Contents() == Commit(old(Contents()), run, p, last)
        && hub == old(hub) + Announce(run, p, last)
        && newLast == NextLast(p, last)
        && old(hub) <= hub
        && Applied(old(Contents()), Contents(), hub[|old(hub)|..], run, p, last, newLast)
      ensures !applied ==> Contents() == old(Contents()) && hub == old(hub) && newLast == last
    {
      hide Applied;
      newLast := last;
      CommitApplies(Contents(), run, p, last);
      var pairs := PairsOf(p);
      var candidate := Candidate(p, last);
      var shouldWrite := pairs != [] && candidate > last;
      var tries, slept;
      applied, tries, slept := WithRetry(outcomes);
      if !applied {
        return;
      }
      var txRuns := if run in runs then runs[run := UpdateRow(runs[run], p)] else runs;
      var txMetrics := metrics;
      if shouldWrite {
        for i := 0 to |pairs|
          invariant Upsert(metrics, run, candidate, pairs) == Upsert(txMetrics, run, candidate, pairs[i..])
        {
          txMetrics := txMetrics[Key(run, candidate, pairs[i].0) := pairs[i].1];
          assert pairs[i..][1..] == pairs[i + 1..];
        }
      }
      runs, metrics := txRuns, txMetrics;
      if shouldWrite {
        ghost var before := hub;
        for i := 0 to |pairs|
          invariant hub == before + MetricUpdates(run, p.status, candidate, pairs[..i])
          invariant runs == txRuns && metrics == txMetrics
        {
          assert MetricUpdates(run, p.status, candidate, pairs[..i + 1])
              == MetricUpdates(run, p.status, candidate, pairs[..i])
               + [Metric(run, p.status, candidate, pairs[i].0, pairs[i].1)];
          hub := hub + [Metric(run, p.status, candidate, pairs[i].0, pairs[i].1)];
        }
        assert pairs[..|pairs|] == pairs;
        newLast := candidate;
      } else if pairs == [] {
        hub := hub + [Heartbeat(run, p.status, last)];
      }
    }

    /** `run`: recover the step, then poll until told to stop. A failed recovery
        query falls back to -1. */
    method Run(run: RunId, recovers: bool, events: seq<PollEvent>) returns (last: I64, exit: Exit)
      requires WellFormed(events)
      modifies this
      ensures TaskState(Contents(), hub, last, exit)
           == Task(TaskState(old(Contents()), old(hub),
                             if recovers then LastStep(old(metrics), run) else -1, StillPolling),
                   run, events)
    {
      if recovers {
        last := GetLastStep(run);
      } else {
        last := -1;
      }
      exit := StillPolling;
      ghost var start := TaskState(Contents(), hub, last, StillPolling);
      var i := 0;
      while i < |events| && exit == StillPolling
        invariant 0 <= i <= |events|
        invariant Task(start, run, events) == Task(TaskState(Contents(), hub, last, exit), run, events[i..])
      {
        assert events[i..][1..] == events[i + 1..];
        match events[i] {
          case CancelRequested => exit := Stopped;
          case ShuttingDown => exit := Stopped;
          case JobMissing => exit := Missing;
          case PollError =>
          case Polled(p, outcomes) =>
            var applied;
            applied, last := ApplyUpdate(run, p, last, outcomes);
            if IsTerminal(p.status) {
              exit := TerminalStatus;
            }
        }
        i := i + 1;
      }
    }
  }

  // ---- A task's loop is an execution -----------------------------------------------

  /** The steps of `IngestionRuns` that a task's polls are. */
  ghost function TaskSteps(run: RunId, events: seq<PollEvent>): seq<Step>
    decreases |events|
  {
    if events == [] then []
    else
      match events[0]
      case CancelRequested => [Ends(run)]
      case ShuttingDown => [Ends(run)]
      case JobMissing => [Ends(run)]
      case PollError => TaskSteps(run, events[1..])
      case Polled(p, outcomes) =>
        var step := if Succeeds(outcomes) then Commits(run, p) else Fails(run, p);
        if IsTerminal(p.status) then [step, Ends(run)] else [step] + TaskSteps(run, events[1..])
  }

  lemma {:induction false} TaskIsExecution(w: World, run: RunId, events: seq<PollEvent>)
    requires run in w.tasks
    ensures Runs(w, TaskSteps(run, events))
    ensures var t := Task(TaskState(w.db, w.hub, w.tasks[run], StillPolling), run, events);
            var a := After(w, TaskSteps(run, events));
            a.db == t.db && a.hub == t.hub && (t.exit == StillPolling <==> run in a.tasks)
    decreases |events|
  {
    hide Commit, NextLast, Announce, IsTerminal, Succeeds;
    if events != [] {
      var event := events[0];
      var steps := TaskSteps(run, events);
      match event
      case PollError => TaskIsExecution(w, run, events[1..]);
      case Polled(p, outcomes) =>
        var w1 := Next(w, steps[0]);
        if IsTerminal(p.status) {
          assert steps[1..] == [Ends(run)];
          assert steps[1..][1..] == [];
          assert Runs(Next(w1, Ends(run)), []);
          assert Runs(w1, steps[1..]);
          assert After(w1, steps[1..]) == Next(w1, Ends(run));
        } else {
          TaskIsExecution(w1, run, events[1..]);
          assert steps[1..] == TaskSteps(run, events[1..]);
        }
      case _ =>
        assert steps[1..] == [];
    }
  }

  /** A task that stops on a terminal status has recorded a terminal status exactly
      when the transaction of that last poll committed (or the row had one already):
      the loop ends even when its final update could not be written. */
  lemma {:induction false} TerminalStatusRecorded(s: TaskState, run: RunId, events: seq<PollEvent>)
    returns (i: nat, before: TaskState)
    requires s.exit == StillPolling && run in s.db.runs
    requires Task(s, run, events).exit == TerminalStatus
    ensures i < |events| && events[i].Polled? && IsTerminal(events[i].payload.status)
    ensures forall k :: 0 <= k < i ==> Continues(events[k])
    ensures before == Task(s, run, events[..i]) && before.exit == StillPolling && run in before.db.runs
    ensures var t := Task(s, run, events);
            && t == Turn(before, run, events[i])
            && run in t.db.runs
            && (IsTerminal(t.db.runs[run].status)
                <==> Succeeds(events[i].outcomes) || IsTerminal(before.db.runs[run].status))
    decreases |events|
  {
    hide IsTerminal, Succeeds, Announce, NextLast;
    var s1 := Turn(s, run, events[0]);
    if s1.exit == StillPolling {
      i, before := TerminalStatusRecorded(s1, run, events[1..]);
      assert events[1..][..i] == events[..i + 1][1..];
      i := i + 1;
    } else {
      assert Task(s, run, events) == s1;
      i, before := 0, s;
      assert events[..0] == [];
    }
  }

  /** The task goes on polling after this. */
  predicate Continues(event: PollEvent) {
    event.PollError? || (event.Polled? && !IsTerminal(event.payload.status))
  }

  /** The statuses a job ends in, in either case. */
  lemma TerminalStatuses(status: string)
    ensures IsTerminal(status) <==>
      Lower(status) in {"succeeded", "failed", "cancelled", "completed", "errored", "error"}
  {
  }

  /** Why a task ends: for the first event after which it does not go on. */
  lemma {:induction false} TaskEndsBy(s: TaskState, run: RunId, events: seq<PollEvent>, i: nat)
    requires s.exit == StillPolling && i <= |events|
    requires forall k :: 0 <= k < i ==> Continues(events[k])
    requires i < |events| ==> !Continues(events[i])
    ensures Task(s, run, events).exit ==
      if i == |events| then StillPolling
      else if events[i].CancelRequested? || events[i].ShuttingDown? then Stopped
      else if events[i].JobMissing? then Missing
      else TerminalStatus
    decreases i
  {
    hide IsTerminal, Succeeds, Commit, Announce, NextLast;
    if i > 0 {
      TaskEndsBy(Turn(s, run, events[0]), run, events[1..], i - 1);
    } else if events != [] {
      assert Task(s, run, events) == Turn(s, run, events[0]);
    }
  }

  /** So a last transaction that never commits leaves the row as it was for good. */
  lemma TerminalStatusLost(s: TaskState, run: RunId, p: Payload, outcomes: seq<Attempt>)
    requires s.exit == StillPolling && IsTerminal(p.status)
    requires forall k :: 0 <= k < |outcomes| ==> outcomes[k] != Attempt.Committed
    ensures Task(s, run, [Polled(p, outcomes)]) == s.(exit := TerminalStatus)
  {
    hide IsTerminal, Commit, Announce, NextLast;
    var events := [Polled(p, outcomes)];
    assert events[1..] == [];
    assert Turn(s, run, events[0]) == s.(exit := TerminalStatus);
  }
}
