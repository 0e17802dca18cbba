/** The job map and metric ingestion together: patient callers give each run one task at a
    time, which is what write-once rows need; what two tasks of one run do to them. */
module TrackedRuns {
  import opened Ingestion
  import opened IngestionRuns
  import J = JobTable

  // ---- Two tasks polling one run -------------------------------------------------------------

  /** A poll changes no stored row if and only if it writes nothing, or every row it writes
      is new or has the value already. */
  lemma KeepsRowsIff(db: Db, run: RunId, p: Payload, last: I64)
    ensures KeepsRows(db.metrics, Commit(db, run, p, last).metrics)
       <==> !Writes(p, last) || forall i :: 0 <= i < |PairsOf(p)| ==>
              var k := Key(run, Candidate(p, last), PairsOf(p)[i].0);
              k in db.metrics ==> db.metrics[k] == PairsOf(p)[i].1
  {
    hide Upsert, Numbers;
    if Writes(p, last) {
      var pairs, step := PairsOf(p), Candidate(p, last);
      var after := Upsert(db.metrics, run, step, pairs);
      PairsDistinct(p);
      UpsertHolds(db.metrics, run, step, pairs);
      assert forall i :: 0 <= i < |pairs| ==>
        Key(run, step, pairs[i].0) in after && after[Key(run, step, pairs[i].0)] == pairs[i].1;
      forall k | k in db.metrics
        ensures k in after
        ensures !(k.run == run && k.step == step && Named(pairs, k.name)) ==> after[k] == db.metrics[k]
      {
        UpsertKeys(db.metrics, run, step, pairs, k);
      }
    }
  }

  /** After one of two tasks at the same step has stored a poll, the other is behind the
      table: some poll of it changes a stored row. */
  lemma SecondTaskIsBehind(db: Db, run: RunId, p: Payload)
    requires Writes(p, LastStep(db.metrics, run))
    ensures var last := LastStep(db.metrics, run);
            var after := Commit(db, run, p, last);
            exists q :: !KeepsRows(after.metrics, Commit(after, run, q, last).metrics)
  {
    hide Upsert, Numbers, KeepsRows;
    var last := LastStep(db.metrics, run);
    var after := Commit(db, run, p, last);
    CommitMovesLast(db, run, p, run);
    var k := Key(run, Candidate(p, last), PairsOf(p)[0].0);
    UpsertKeys(db.metrics, run, Candidate(p, last), PairsOf(p), k);
    assert Named(PairsOf(p), k.name);
    assert k.step in StepsOf(after.metrics, run);
    WriteOnceIffNotBehind(after, run, last);
  }

  /** Only a poll of the same job state is harmless: stored twice it changes nothing. */
  lemma SamePollTwice(db: Db, run: RunId, p: Payload, last: I64)
    ensures var after := Commit(db, run, p, last);
            Commit(after, run, p, last).metrics == after.metrics
  {
    hide Upsert, Numbers;
    if Writes(p, last) {
      PairsDistinct(p);
      UpsertHolds(db.metrics, run, Candidate(p, last), PairsOf(p));
      UpsertAgain(Commit(db, run, p, last).metrics, run, Candidate(p, last), PairsOf(p));
    }
  }

  // ---- Patient callers give one task per run ---------------------------------------------------

  /** A call of the supervisor, or one poll of a task that has not ended. */
  datatype Event = Called(call: J.Call) | Polls(step: Step)

  predicate IsPoll(s: Step) {
    s.Commits? || s.Fails?
  }

  ghost predicate Live(j: J.State, run: RunId) {
    exists t :: t in j.tasks && j.tasks[t].run == run
  }

  ghost predicate Allowed(j: J.State, e: Event) {
    match e
    case Called(call) => J.Possible(j, call) && J.Patient(j, call)
    case Polls(step) => IsPoll(step) && Live(j, step.run)
  }

  ghost function AfterEvent(j: J.State, e: Event): J.State
    requires Allowed(j, e)
  {
    match e
    case Called(call) => J.Do(j, call)
    case Polls(_) => j
  }

  ghost predicate AllAllowed(j: J.State, events: seq<Event>)
    decreases |events|
  {
    events == [] || (Allowed(j, events[0]) && AllAllowed(AfterEvent(j, events[0]), events[1..]))
  }

  /** The step of the ingestion results an event is, if any. */
  function StepOf(j: J.State, e: Event): seq<Step> {
    match e
    case Polls(step) => [step]
    case Called(TrackCall(run)) => if run in j.jobs then [] else [Start(run)]
    case Called(UntrackCall(_)) => []
    case Called(TaskEnds(t)) => if t in j.tasks then [Ends(j.tasks[t].run)] else []
  }

  ghost function StepsFrom(j: J.State, events: seq<Event>): seq<Step>
    requires AllAllowed(j, events)
    decreases |events|
  {
    if events == [] then [] else StepOf(j, events[0]) + StepsFrom(AfterEvent(j, events[0]), events[1..])
  }

  ghost predicate OneTaskEach(j: J.State) {
    forall t, u :: t in j.tasks && u in j.tasks && j.tasks[t].run == j.tasks[u].run ==> t == u
  }

  ghost predicate Together(j: J.State, w: World) {
    && J.MapIsLive(j) && J.NoneEnding(j) && OneTaskEach(j)
    && forall run :: run in w.tasks <==> Live(j, run)
  }

  lemma TrackTogether(j: J.State, w: World, run: RunId)
    requires Together(j, w) && J.Patient(j, J.TrackCall(run)) && run !in j.jobs
    ensures run !in w.tasks
    ensures OneTaskEach(J.Do(j, J.TrackCall(run)))
    ensures forall r :: Live(J.Do(j, J.TrackCall(run)), r) <==> r == run || Live(j, r)
  {
    var k := J.Do(j, J.TrackCall(run));
    assert k.tasks == j.tasks[j.next := J.Task(run, false)];
    assert j.next !in j.tasks;
    forall t | t in j.tasks ensures j.tasks[t].run != run {
    }
    forall r ensures Live(k, r) <==> r == run || Live(j, r) {
      if Live(j, r) {
        var t :| t in j.tasks && j.tasks[t].run == r;
        assert t in k.tasks && k.tasks[t].run == r;
      }
      if r == run {
        assert k.tasks[j.next].run == r;
      }
    }
  }

  lemma UntrackTogether(j: J.State, run: RunId)
    requires OneTaskEach(j)
    ensures var k := J.Do(j, J.UntrackCall(run)); OneTaskEach(k) && forall r :: Live(k, r) <==> Live(j, r)
  {
    var k := J.Do(j, J.UntrackCall(run));
    assert k.tasks.Keys == j.tasks.Keys && forall t :: t in j.tasks ==> k.tasks[t].run == j.tasks[t].run;
    forall r ensures Live(k, r) <==> Live(j, r) {
      if Live(j, r) {
        var t :| t in j.tasks && j.tasks[t].run == r;
        assert t in k.tasks && k.tasks[t].run == r;
      }
    }
  }

  lemma EndTogether(j: J.State, t: J.TaskId)
    requires OneTaskEach(j) && t in j.tasks
    ensures var k := J.Do(j, J.TaskEnds(t));
            OneTaskEach(k) && forall r :: Live(k, r) <==> Live(j, r) && r != j.tasks[t].run
  {
    var k := J.Do(j, J.TaskEnds(t));
    forall r ensures Live(k, r) <==> Live(j, r) && r != j.tasks[t].run {
      if Live(j, r) && r != j.tasks[t].run {
        var u :| u in j.tasks && j.tasks[u].run == r;
        assert u in k.tasks && k.tasks[u].run == r;
      }
    }
  }

  lemma TrackStep(j: J.State, w: World, run: RunId)
    requires Together(j, w) && J.Patient(j, J.TrackCall(run)) && run !in j.jobs
    ensures Enabled(w, Start(run)) && Together(J.Do(j, J.TrackCall(run)), Next(w, Start(run)))
  {
    hide Live, OneTaskEach, J.MapIsLive, J.NoneEnding, J.Do;
    J.CallKeepsMapLive(j, J.TrackCall(run));
    TrackTogether(j, w, run);
  }

  lemma UntrackStep(j: J.State, w: World, run: RunId)
    requires Together(j, w)
    ensures Together(J.Do(j, J.UntrackCall(run)), w)
  {
    hide Live, OneTaskEach, J.MapIsLive, J.NoneEnding, J.Do;
    J.CallKeepsMapLive(j, J.UntrackCall(run));
    UntrackTogether(j, run);
  }

  lemma EndStep(j: J.State, w: World, t: J.TaskId)
    requires Together(j, w) && t in j.tasks
    ensures Enabled(w, Ends(j.tasks[t].run))
    ensures Together(J.Do(j, J.TaskEnds(t)), Next(w, Ends(j.tasks[t].run)))
  {
    hide Live, OneTaskEach, J.MapIsLive, J.NoneEnding, J.Do;
    J.CallKeepsMapLive(j, J.TaskEnds(t));
    EndTogether(j, t);
    LiveTask(j, t);
  }

  lemma PollStep(j: J.State, w: World, step: Step)
    requires Together(j, w) && IsPoll(step) && Live(j, step.run)
    ensures Enabled(w, step) && Together(j, Next(w, step))
  {
    hide Live, OneTaskEach, J.MapIsLive, J.NoneEnding, Commit, NextLast, Announce;
  }

  /** One event: at most one enabled step, after which map and tasks still go together. */
  lemma EventIsStep(j: J.State, w: World, e: Event) returns (v: World)
    requires Together(j, w) && Allowed(j, e)
    ensures var steps := StepOf(j, e);
            && |steps| <= 1
            && (steps == [] ==> v == w)
            && (steps != [] ==> Enabled(w, steps[0]) && v == Next(w, steps[0]))
    ensures Together(AfterEvent(j, e), v)
  {
    hide Together, Live, J.Patient, Enabled, Next;
    v := w;
    match e
    case Polls(step) =>
      PollStep(j, w, step);
      v := Next(w, step);
    case Called(TrackCall(run)) =>
      if run !in j.jobs {
        TrackStep(j, w, run);
        v := Next(w, Start(run));
      }
    case Called(UntrackCall(run)) =>
      UntrackStep(j, w, run);
    case Called(TaskEnds(t)) =>
      EndStep(j, w, t);
      v := Next(w, Ends(j.tasks[t].run));
  }

  lemma LiveTask(j: J.State, t: J.TaskId)
    requires t in j.tasks
    ensures Live(j, j.tasks[t].run)
  {
  }

  ghost function AfterEvents(j: J.State, events: seq<Event>): J.State
    requires AllAllowed(j, events)
    decreases |events|
  {
    if events == [] then j else AfterEvents(AfterEvent(j, events[0]), events[1..])
  }

  /** The polls of a history, in order. */
  function PollsOf(events: seq<Event>): seq<Step> {
    if events == [] then [] else (if events[0].Polls? then [events[0].step] else []) + PollsOf(events[1..])
  }

  function PollSteps(steps: seq<Step>): seq<Step> {
    if steps == [] then [] else (if IsPoll(steps[0]) then [steps[0]] else []) + PollSteps(steps[1..])
  }

  /** Its steps hold exactly these polls. */
  lemma {:induction false} StepsHavePolls(j: J.State, events: seq<Event>)
    requires AllAllowed(j, events)
    ensures PollSteps(StepsFrom(j, events)) == PollsOf(events)
    decreases |events|
  {
    hide J.Do, J.Patient, J.Possible, Live;
    if events != [] {
      StepsHavePolls(AfterEvent(j, events[0]), events[1..]);
      var steps, rest := StepOf(j, events[0]), StepsFrom(AfterEvent(j, events[0]), events[1..]);
      if steps == [] {
        assert steps + rest == rest;
      } else {
        assert (steps + rest)[1..] == rest;
      }
    }
  }

  /** With patient callers every interleaving of calls, polls and task ends is one of the
      executions the restart and write-once results speak of. */
  lemma {:induction false} PatientCallersGiveRuns(j: J.State, w: World, events: seq<Event>)
    requires Together(j, w) && AllAllowed(j, events)
    ensures Runs(w, StepsFrom(j, events))
    ensures Together(AfterEvents(j, events), After(w, StepsFrom(j, events)))
    decreases |events|
  {
    hide Together, StepOf, Allowed, Enabled, Next;
    if events != [] {
      var v := EventIsStep(j, w, events[0]);
      PatientCallersGiveRuns(AfterEvent(j, events[0]), v, events[1..]);
      var steps, rest := StepOf(j, events[0]), StepsFrom(AfterEvent(j, events[0]), events[1..]);
      if steps == [] {
        assert steps + rest == rest;
      } else {
        assert (steps + rest)[1..] == rest;
        assert (steps + rest)[0] == steps[0];
      }
    }
  }

  /** So from an empty job map committed rows never change. */
  lemma PatientCallersKeepRows(db: Db, events: seq<Event>)
    requires AllAllowed(J.EMPTY, events)
    ensures Runs(World(db, map[], []), StepsFrom(J.EMPTY, events))
    ensures KeepsRows(db.metrics, After(World(db, map[], []), StepsFrom(J.EMPTY, events)).db.metrics)
  {
    hide AllAllowed, StepsFrom, Runs, After, KeepsRows;
    var w := World(db, map[], []);
    assert Together(J.EMPTY, w);
    PatientCallersGiveRuns(J.EMPTY, w, events);
    RowsNeverChange(w, StepsFrom(J.EMPTY, events));
  }
}
