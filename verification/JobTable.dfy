/** The supervisor's job map: `track`, `untrack` and the removal a task does when
    it ends, which is by run id and not by task. */
module JobTable {

  type RunId = string
  type TaskId = nat

  datatype Task = Task(run: RunId, cancelled: bool)

  /** `jobs` is the shared map; `tasks` are the tasks that have not ended;
      `checked` are calls of `track` between their check and their insert. */
  datatype State = State(jobs: map<RunId, TaskId>, tasks: map<TaskId, Task>,
                         checked: multiset<RunId>, next: TaskId)

  const EMPTY := State(map[], map[], multiset{}, 0)

  datatype Step =
    | Check(run: RunId)    // track: contains_key
    | Insert(run: RunId)   // track: insert and spawn
    | Untrack(run: RunId)
    | Exit(task: TaskId)   // a task ends, for whatever reason

  predicate Enabled(s: State, step: Step) {
    match step
    case Check(_) => true
    case Insert(run) => run in s.checked
    case Untrack(_) => true
    case Exit(t) => t in s.tasks
  }

  function Next(s: State, step: Step): State
    requires Enabled(s, step)
  {
    match step
    case Check(run) => if run in s.jobs then s else s.(checked := s.checked + multiset{run})
    case Insert(run) =>
      State(s.jobs[run := s.next], s.tasks[s.next := Task(run, false)],
            s.checked - multiset{run}, s.next + 1)
    case Untrack(run) =>
      if run !in s.jobs then s
      else
        var t := s.jobs[run];
        s.(jobs := s.jobs - {run},
           tasks := if t in s.tasks then s.tasks[t := s.tasks[t].(cancelled := true)] else s.tasks)
    case Exit(t) => s.(jobs := s.jobs - {s.tasks[t].run}, tasks := s.tasks - {t})
  }

  /** The map lists exactly the live uncancelled tasks, one per run. */
  ghost predicate MapIsLive(s: State) {
    && (forall run :: run in s.jobs ==> s.jobs[run] in s.tasks && s.tasks[s.jobs[run]] == Task(run, false))
    && (forall t :: t in s.tasks && !s.tasks[t].cancelled ==>
          s.tasks[t].run in s.jobs && s.jobs[s.tasks[t].run] == t)
    && (forall t :: t in s.tasks ==> t < s.next)
  }

  /** The two ways to go wrong: inserting over an entry another `track` has put in
      meanwhile, and a cancelled task ending after its run was tracked again. */
  predicate Clean(s: State, step: Step)
    requires Enabled(s, step)
  {
    match step
    case Insert(run) => run !in s.jobs
    case Exit(t) => s.tasks[t].cancelled ==> s.tasks[t].run !in s.jobs
    case _ => true
  }

  /** A step keeps the map live exactly when it is clean. */
  lemma StepKeepsMapLive(s: State, step: Step)
    requires MapIsLive(s) && Enabled(s, step)
    ensures MapIsLive(Next(s, step)) <==> Clean(s, step)
  {
    var s1 := Next(s, step);
    match step
    case Insert(run) =>
      if run in s.jobs {
        var t := s.jobs[run];
        assert t in s1.tasks && !s1.tasks[t].cancelled && s1.jobs[run] != t;
      }
    case Exit(t) =>
      var run := s.tasks[t].run;
      if s.tasks[t].cancelled && run in s.jobs {
        var newer := s.jobs[run];
        assert newer in s1.tasks && !s1.tasks[newer].cancelled && run !in s1.jobs;
      }
    case _ =>
  }

  predicate Runs(s: State, steps: seq<Step>)
    decreases |steps|
  {
    steps == [] || (Enabled(s, steps[0]) && Runs(Next(s, steps[0]), steps[1..]))
  }

  predicate AllClean(s: State, steps: seq<Step>)
    requires Runs(s, steps)
    decreases |steps|
  {
    steps == [] || (Clean(s, steps[0]) && AllClean(Next(s, steps[0]), steps[1..]))
  }

  ghost predicate AlwaysLive(s: State, steps: seq<Step>)
    requires Runs(s, steps)
    decreases |steps|
  {
    MapIsLive(s) && (steps == [] || AlwaysLive(Next(s, steps[0]), steps[1..]))
  }

  /** An execution keeps the map equal to the live tasks throughout exactly when
      every step of it is clean. */
  lemma {:induction false} AlwaysLiveIffClean(s: State, steps: seq<Step>)
    requires MapIsLive(s) && Runs(s, steps)
    ensures AlwaysLive(s, steps) <==> AllClean(s, steps)
    decreases |steps|
  {
    hide MapIsLive, Next;
    if steps != [] {
      StepKeepsMapLive(s, steps[0]);
      if Clean(s, steps[0]) {
        AlwaysLiveIffClean(Next(s, steps[0]), steps[1..]);
      } else {
        NotLiveAtStart(Next(s, steps[0]), steps[1..]);
      }
    }
  }

  lemma NotLiveAtStart(s: State, steps: seq<Step>)
    requires Runs(s, steps) && !MapIsLive(s)
    ensures !AlwaysLive(s, steps)
  {
  }

  // ---- Calls, each taken as one step -------------------------------------------------

  datatype Call = TrackCall(run: RunId) | UntrackCall(run: RunId) | TaskEnds(task: TaskId)

  predicate Possible(s: State, call: Call) {
    call.TaskEnds? ==> call.task in s.tasks
  }

  function Do(s: State, call: Call): State
    requires Possible(s, call)
  {
    match call
    case TrackCall(run) => if run in s.jobs then s else Next(Next(s, Check(run)), Insert(run))
    case UntrackCall(run) => Next(s, Untrack(run))
    case TaskEnds(t) => Next(s, Exit(t))
  }

  /** The caller's side: a run is not tracked again while a cancelled task of it is
      still ending. */
  ghost predicate Patient(s: State, call: Call) {
    call.TrackCall? ==> forall t :: t in s.tasks && s.tasks[t].run == call.run ==> !s.tasks[t].cancelled
  }

  ghost predicate NoneEnding(s: State) {
    forall t :: t in s.tasks && s.tasks[t].cancelled ==> s.tasks[t].run !in s.jobs
  }

  ghost predicate PatientRun(s: State, calls: seq<Call>)
    decreases |calls|
  {
    calls == [] || (Possible(s, calls[0]) && Patient(s, calls[0]) && PatientRun(Do(s, calls[0]), calls[1..]))
  }

  ghost function Result(s: State, calls: seq<Call>): State
    requires PatientRun(s, calls)
    decreases |calls|
  {
    if calls == [] then s else Result(Do(s, calls[0]), calls[1..])
  }

  lemma CallKeepsMapLive(s: State, call: Call)
    requires MapIsLive(s) && NoneEnding(s) && Possible(s, call) && Patient(s, call)
    ensures MapIsLive(Do(s, call)) && NoneEnding(Do(s, call))
  {
    match call
    case TrackCall(run) =>
      if run !in s.jobs {
        assert run in Next(s, Check(run)).checked;
        StepKeepsMapLive(Next(s, Check(run)), Insert(run));
      }
    case UntrackCall(run) => StepKeepsMapLive(s, Untrack(run));
    case TaskEnds(t) => StepKeepsMapLive(s, Exit(t));
  }

  /** With patient callers the job map always equals the live uncancelled tasks. */
  lemma {:induction false} PatientCallersKeepMapLive(s: State, calls: seq<Call>)
    requires MapIsLive(s) && NoneEnding(s) && PatientRun(s, calls)
    ensures MapIsLive(Result(s, calls)) && NoneEnding(Result(s, calls))
    decreases |calls|
  {
    if calls != [] {
      hide MapIsLive, NoneEnding, Do;
      CallKeepsMapLive(s, calls[0]);
      PatientCallersKeepMapLive(Do(s, calls[0]), calls[1..]);
    }
  }

  /** An impatient caller ends up with two tasks polling one run: track, untrack,
      track, the first task ends and takes the second one's entry, track. */
  lemma ImpatientCallerDoublesTask(run: RunId)
    ensures var s1 := Do(EMPTY, TrackCall(run));
            var s2 := Do(s1, UntrackCall(run));
            var s3 := Do(s2, TrackCall(run));
            Possible(s3, TaskEnds(0)) &&
            var s4 := Do(s3, TaskEnds(0));
            var s5 := Do(s4, TrackCall(run));
            && s5.tasks == map[1 := Task(run, false), 2 := Task(run, false)]
            && s5.jobs == map[run := 2]
  {
    var s1 := Do(EMPTY, TrackCall(run));
    assert s1.jobs == map[run := 0] && s1.tasks == map[0 := Task(run, false)];
    var s2 := Do(s1, UntrackCall(run));
    assert s2.jobs == map[] && s2.tasks == map[0 := Task(run, true)];
    var s3 := Do(s2, TrackCall(run));
    assert s3.jobs == map[run := 1] && s3.tasks == map[0 := Task(run, true), 1 := Task(run, false)];
    var s4 := Do(s3, TaskEnds(0));
    assert s4.jobs == map[] && s4.tasks == map[1 := Task(run, false)];
  }

  function After(s: State, steps: seq<Step>): State
    requires Runs(s, steps)
    decreases |steps|
  {
    if steps == [] then s else After(Next(s, steps[0]), steps[1..])
  }

  /** Two concurrent calls of `track` that both pass the check do the same: both tasks
      live, and the map lists only the second. */
  lemma RacingTracksDoubleTask(run: RunId)
    ensures var steps := [Check(run), Check(run), Insert(run), Insert(run)];
            && Runs(EMPTY, steps)
            && After(EMPTY, steps).tasks == map[0 := Task(run, false), 1 := Task(run, false)]
            && After(EMPTY, steps).jobs == map[run := 1]
            && !MapIsLive(After(EMPTY, steps))
  {
    var steps := [Check(run), Check(run), Insert(run), Insert(run)];
    var s1 := Next(EMPTY, steps[0]);
    var s2 := Next(s1, steps[1]);
    assert s2.checked == multiset{run, run};
    var s3 := Next(s2, steps[2]);
    assert s3.checked == multiset{run};
    var s4 := Next(s3, steps[3]);
    var one, two := Task(run, false), map[0 := Task(run, false), 1 := Task(run, false)];
    assert s4.tasks == two && s4.jobs == map[run := 1];
    assert steps[1..][1..] == [Insert(run), Insert(run)] && steps[1..][1..][1..] == [Insert(run)];
    assert [Insert(run)][1..] == [];
    OneStep(s3, Insert(run), []);
    OneStep(s2, Insert(run), [Insert(run)]);
    OneStep(s1, Check(run), [Insert(run), Insert(run)]);
    OneStep(EMPTY, Check(run), [Check(run), Insert(run), Insert(run)]);
    assert steps == [Check(run)] + [Check(run), Insert(run), Insert(run)];
    assert s4.tasks[0] == one && s4.jobs[run] != 0;
  }

  lemma OneStep(s: State, step: Step, rest: seq<Step>)
    requires Enabled(s, step) && Runs(Next(s, step), rest)
    ensures Runs(s, [step] + rest) && After(s, [step] + rest) == After(Next(s, step), rest)
  {
    assert ([step] + rest)[1..] == rest;
  }

  // ---- The map as the supervisor holds it ---------------------------------------------

  class Jobs {
    var jobs: map<RunId, TaskId>
    var tasks: map<TaskId, Task>
    var next: TaskId

    constructor ()
      ensures Contents() == EMPTY
    {
      jobs, tasks, next := map[], map[], 0;
    }

    function Contents(): State
      reads this
    {
      State(jobs, tasks, multiset{}, next)
    }

    /** Idempotent: true when a new task was spawned. */
    method Track(run: RunId) returns (spawned: bool)
      modifies this
      ensures spawned <==> run !in old(jobs)
      ensures Contents() == Do(old(Contents()), TrackCall(run))
    {
      if run in jobs {
        return false;
      }
      jobs := jobs[run := next];
      tasks := tasks[next := Task(run, false)];
      next := next + 1;
      assert multiset{} + multiset{run} - multiset{run} == multiset{};
      return true;
    }

    method Untrack(run: RunId) returns (removed: bool)
      modifies this
      ensures removed <==> run in old(jobs)
      ensures Contents() == Do(old(Contents()), UntrackCall(run))
    {
      if run !in jobs {
        return false;
      }
      var t := jobs[run];
      jobs := jobs - {run};
      if t in tasks {
        tasks := tasks[t := tasks[t].(cancelled := true)];
      }
      return true;
    }

    /** The end of the spawned task. */
    method TaskExit(t: TaskId)
      requires t in tasks
      modifies this
      ensures Contents() == Do(old(Contents()), TaskEnds(t))
    {
      jobs := jobs - {tasks[t].run};
      tasks := tasks - {t};
    }
  }
}
