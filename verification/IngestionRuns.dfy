/** Whole executions of the supervisor: tasks polling any number of runs,
    transactions that fail, crashes between commit and memory update, restarts
    that recover the step from the table. */
module IngestionRuns {
  import opened Text
  import opened Ingestion

  datatype World = World(db: Db, tasks: map<RunId, I64>, hub: seq<Update>)

  datatype Step =
    | Start(run: RunId)                             // track: recover last_step, begin polling
    | Commits(run: RunId, payload: Payload)         // a poll whose transaction commits
    | Fails(run: RunId, payload: Payload)           // a poll whose transaction fails for good
    | CrashAfterCommit(run: RunId, payload: Payload) // committed, then the process dies unannounced
    | Crash                                         // the process dies between transactions
    | Ends(run: RunId)                              // cancelled, job gone, or terminal status

  /** One task per run; only live tasks poll. */
  predicate Enabled(w: World, s: Step) {
    match s
    case Start(run) => run !in w.tasks
    case Commits(run, _) => run in w.tasks
    case Fails(run, _) => run in w.tasks
    case CrashAfterCommit(run, _) => run in w.tasks
    case Crash => true
    case Ends(run) => run in w.tasks
  }

  ghost function Next(w: World, s: Step): World
    requires Enabled(w, s)
  {
    match s
    case Start(run) => w.(tasks := w.tasks[run := LastStep(w.db.metrics, run)])
    case Commits(run, p) =>
      var last := w.tasks[run];
      World(Commit(w.db, run, p, last), w.tasks[run := NextLast(p, last)], w.hub + Announce(run, p, last))
    case Fails(_, _) => w
    case CrashAfterCommit(run, p) => World(Commit(w.db, run, p, w.tasks[run]), map[], w.hub)
    case Crash => w.(tasks := map[])
    case Ends(run) => w.(tasks := w.tasks - {run})
  }

  ghost predicate Runs(w: World, steps: seq<Step>)
    decreases |steps|
  {
    steps == [] || (Enabled(w, steps[0]) && Runs(Next(w, steps[0]), steps[1..]))
  }

  ghost function After(w: World, steps: seq<Step>): World
    requires Runs(w, steps)
    decreases |steps|
  {
    if steps == [] then w else After(Next(w, steps[0]), steps[1..])
  }

  // ---- The uninterrupted supervisor ---------------------------------------------

  type Log = seq<(RunId, Payload)>

  /** The polls whose transactions committed, in commit order. */
  function Committed(steps: seq<Step>): Log {
    if steps == [] then []
    else
      var more := Committed(steps[1..]);
      match steps[0]
      case Commits(run, p) => [(run, p)] + more
      case CrashAfterCommit(run, p) => [(run, p)] + more
      case _ => more
  }

  /** A supervisor that never stops: its steps live in memory from the start. */
  datatype Ideal = Ideal(db: Db, lasts: map<RunId, I64>)

  ghost function LastIn(s: Ideal, run: RunId, start: Table): I64 {
    if run in s.lasts then s.lasts[run] else LastStep(start, run)
  }

  ghost function Uninterrupted(s: Ideal, log: Log, start: Table): Ideal
    decreases |log|
  {
    if log == [] then s
    else
      var (run, p) := log[0];
      var last := LastIn(s, run, start);
      Uninterrupted(Ideal(Commit(s.db, run, p, last), s.lasts[run := NextLast(p, last)]), log[1..], start)
  }

  /** Memory agrees with the table, for every run. */
  ghost predicate InStep(s: Ideal, start: Table) {
    forall run :: LastIn(s, run, start) == LastStep(s.db.metrics, run)
  }

  ghost predicate TasksInStep(w: World) {
    forall run :: run in w.tasks ==> w.tasks[run] == LastStep(w.db.metrics, run)
  }

  lemma CommitKeepsInStep(s: Ideal, run: RunId, p: Payload, start: Table)
    requires InStep(s, start)
    ensures var last := LastIn(s, run, start);
            InStep(Ideal(Commit(s.db, run, p, last), s.lasts[run := NextLast(p, last)]), start)
  {
    hide Commit, NextLast;
    var last := LastIn(s, run, start);
    var s1 := Ideal(Commit(s.db, run, p, last), s.lasts[run := NextLast(p, last)]);
    forall other ensures LastIn(s1, other, start) == LastStep(s1.db.metrics, other) {
      CommitMovesLast(s.db, run, p, other);
    }
  }

  lemma StepKeepsTasksInStep(w: World, s: Step)
    requires Enabled(w, s) && TasksInStep(w)
    ensures TasksInStep(Next(w, s))
  {
    hide Commit, NextLast, Announce;
    match s
    case Commits(run, p) =>
      forall other | other in Next(w, s).tasks
        ensures Next(w, s).tasks[other] == LastStep(Next(w, s).db.metrics, other)
      {
        CommitMovesLast(w.db, run, p, other);
      }
    case _ =>
  }

  /** Restart is invisible: whatever fails, crashes and restarts, the database is
      that of an uninterrupted supervisor fed the committed polls, and every live
      task's step is MAX(step), or -1 for a run without rows. */
  lemma {:induction false} RestartIsInvisible(w: World, steps: seq<Step>, s: Ideal, start: Table)
    requires Runs(w, steps) && TasksInStep(w)
    requires s.db == w.db && InStep(s, start)
    ensures After(w, steps).db == Uninterrupted(s, Committed(steps), start).db
    ensures TasksInStep(After(w, steps))
    ensures InStep(Uninterrupted(s, Committed(steps), start), start)
    decreases |steps|
  {
    hide Commit, NextLast, Announce;
    if steps != [] {
      var step := steps[0];
      StepKeepsTasksInStep(w, step);
      if step.Commits? || step.CrashAfterCommit? {
        var run, p := step.run, step.payload;
        var last := LastIn(s, run, start);
        CommitKeepsInStep(s, run, p, start);
        var s1 := Ideal(Commit(s.db, run, p, last), s.lasts[run := NextLast(p, last)]);
        RestartIsInvisible(Next(w, step), steps[1..], s1, start);
        assert Committed(steps)[1..] == Committed(steps[1..]);
      } else {
        RestartIsInvisible(Next(w, step), steps[1..], s, start);
      }
    }
  }

  /** From a fresh boot over any table. */
  lemma RestartIsInvisibleFromBoot(db: Db, steps: seq<Step>)
    requires Runs(World(db, map[], []), steps)
    ensures After(World(db, map[], []), steps).db
         == Uninterrupted(Ideal(db, map[]), Committed(steps), db.metrics).db
    ensures TasksInStep(After(World(db, map[], []), steps))
  {
    RestartIsInvisible(World(db, map[], []), steps, Ideal(db, map[]), db.metrics);
  }

  // ---- Write-once and publish-after-commit, over whole executions ------------------

  lemma {:induction false} RowsNeverChange(w: World, steps: seq<Step>)
    requires Runs(w, steps) && TasksInStep(w)
    ensures KeepsRows(w.db.metrics, After(w, steps).db.metrics)
    decreases |steps|
  {
    hide Commit, NextLast, Announce;
    if steps != [] {
      var step := steps[0];
      StepKeepsTasksInStep(w, step);
      if step.Commits? || step.CrashAfterCommit? {
        CommitKeepsRows(w.db, step.run, step.payload, w.tasks[step.run]);
      }
      RowsNeverChange(Next(w, step), steps[1..]);
    }
  }

  function UpdateKey(u: Update): Key
    requires u.Metric?
  {
    Key(u.run, u.step, u.name)
  }

  /** Every announced metric is a committed row with that value, and no row is
      announced twice. */
  ghost predicate HubOk(hub: seq<Update>, t: Table) {
    && (forall i :: 0 <= i < |hub| && hub[i].Metric? ==>
          UpdateKey(hub[i]) in t && t[UpdateKey(hub[i])] == hub[i].value)
    && (forall i, j :: 0 <= i < j < |hub| && hub[i].Metric? && hub[j].Metric? ==>
          UpdateKey(hub[i]) != UpdateKey(hub[j]))
  }

  lemma AnnounceIsFresh(db: Db, run: RunId, p: Payload)
    ensures var last := LastStep(db.metrics, run);
            var told := Announce(run, p, last);
            && HubOk(told, Commit(db, run, p, last).metrics)
            && (forall i :: 0 <= i < |told| && told[i].Metric? ==> UpdateKey(told[i]) !in db.metrics)
  {
    var last := LastStep(db.metrics, run);
    if Writes(p, last) {
      PairsDistinct(p);
      UpsertHolds(db.metrics, run, Candidate(p, last), PairsOf(p));
    }
  }

  lemma HubGrows(hub: seq<Update>, t: Table, more: seq<Update>, t1: Table)
    requires HubOk(hub, t) && KeepsRows(t, t1) && HubOk(more, t1)
    requires forall i :: 0 <= i < |more| && more[i].Metric? ==> UpdateKey(more[i]) !in t
    ensures HubOk(hub + more, t1)
  {
    var all := hub + more;
    forall i | 0 <= i < |all| && all[i].Metric?
      ensures UpdateKey(all[i]) in t1 && t1[UpdateKey(all[i])] == all[i].value
    {
      if i >= |hub| {
        assert all[i] == more[i - |hub|];
      }
    }
    forall i, j | 0 <= i < j < |all| && all[i].Metric? && all[j].Metric?
      ensures UpdateKey(all[i]) != UpdateKey(all[j])
    {
      if j >= |hub| {
        assert all[j] == more[j - |hub|];
        if i >= |hub| {
          assert all[i] == more[i - |hub|];
        } else {
          assert all[i] == hub[i];
        }
      }
    }
  }

  /** Subscribers see each row at most once, only after it is committed, and what
      they saw stays true, across every failure and restart. */
  lemma {:induction false} AnnouncedRowsAreCommitted(w: World, steps: seq<Step>)
    requires Runs(w, steps) && TasksInStep(w) && HubOk(w.hub, w.db.metrics)
    ensures HubOk(After(w, steps).hub, After(w, steps).db.metrics)
    decreases |steps|
  {
    hide Commit, NextLast, Announce, HubOk;
    if steps != [] {
      var step := steps[0];
      var w1 := Next(w, step);
      StepKeepsTasksInStep(w, step);
      if step.Commits? || step.CrashAfterCommit? {
        var last := w.tasks[step.run];
        CommitKeepsRows(w.db, step.run, step.payload, last);
        AnnounceIsFresh(w.db, step.run, step.payload);
        EmptyHub(w1.db.metrics);
        if step.Commits? {
          HubGrows(w.hub, w.db.metrics, Announce(step.run, step.payload, last), w1.db.metrics);
        } else {
          HubGrows(w.hub, w.db.metrics, [], w1.db.metrics);
          assert w.hub + [] == w.hub;
        }
      }
      AnnouncedRowsAreCommitted(w1, steps[1..]);
    }
  }

  lemma EmptyHub(t: Table)
    ensures HubOk([], t)
  {
  }

  predicate NoCrashAfterCommit(steps: seq<Step>) {
    forall i :: 0 <= i < |steps| ==> !steps[i].CrashAfterCommit?
  }

  ghost predicate Announced(hub: seq<Update>, k: Key, value: real) {
    exists i :: 0 <= i < |hub| && hub[i].Metric? && UpdateKey(hub[i]) == k && hub[i].value == value
  }

  lemma NewRowIsAnnounced(db: Db, run: RunId, p: Payload, k: Key)
    requires var last := LastStep(db.metrics, run);
             k in Commit(db, run, p, last).metrics && k !in db.metrics
    ensures var last := LastStep(db.metrics, run);
            Announced(Announce(run, p, last), k, Commit(db, run, p, last).metrics[k])
  {
    hide Upsert;
    var last := LastStep(db.metrics, run);
    var pairs, step := PairsOf(p), Candidate(p, last);
    PairsDistinct(p);
    UpsertKeys(db.metrics, run, step, pairs, k);
    UpsertHolds(db.metrics, run, step, pairs);
    var i :| 0 <= i < |pairs| && pairs[i].0 == k.name;
    var u := Announce(run, p, last)[i];
    assert u == Metric(run, p.status, step, pairs[i].0, pairs[i].1) && UpdateKey(u) == k;
  }

  lemma AnnouncedStays(hub: seq<Update>, more: seq<Update>, k: Key, value: real)
    requires Announced(hub, k, value) || Announced(more, k, value)
    ensures Announced(hub + more, k, value)
  {
    var all := hub + more;
    if Announced(hub, k, value) {
      var i :| 0 <= i < |hub| && hub[i].Metric? && UpdateKey(hub[i]) == k && hub[i].value == value;
      assert all[i] == hub[i];
    } else {
      var i :| 0 <= i < |more| && more[i].Metric? && UpdateKey(more[i]) == k && more[i].value == value;
      assert all[|hub| + i] == more[i];
    }
  }

  /** And unless the process dies between a commit and its announcement, subscribers
      are told every new row, with the value it has for good. */
  lemma {:induction false} NewRowsAreAnnounced(w: World, steps: seq<Step>, k: Key)
    requires Runs(w, steps) && TasksInStep(w) && NoCrashAfterCommit(steps)
    requires k in After(w, steps).db.metrics
    requires k in w.db.metrics ==> Announced(w.hub, k, w.db.metrics[k])
    ensures Announced(After(w, steps).hub, k, After(w, steps).db.metrics[k])
    decreases |steps|
  {
    hide Commit, NextLast, Announce, Announced;
    if steps != [] {
      var step, w1 := steps[0], Next(w, steps[0]);
      StepKeepsTasksInStep(w, step);
      if step.Commits? {
        var last := w.tasks[step.run];
        if k in w.db.metrics {
          CommitKeepsRows(w.db, step.run, step.payload, last);
          AnnouncedStays(w.hub, Announce(step.run, step.payload, last), k, w.db.metrics[k]);
        } else if k in w1.db.metrics {
          NewRowIsAnnounced(w.db, step.run, step.payload, k);
          AnnouncedStays(w.hub, Announce(step.run, step.payload, last), k, w1.db.metrics[k]);
        }
      }
      NewRowsAreAnnounced(w1, steps[1..], k);
    }
  }

  // ---- The run's own row ---------------------------------------------------------------

  function PollsOf(log: Log, run: RunId): seq<Payload> {
    if log == [] then []
    else if log[0].0 == run then [log[0].1] + PollsOf(log[1..], run)
    else PollsOf(log[1..], run)
  }

  ghost predicate IsFirstSome<T>(xs: seq<Option<T>>, r: Option<T>) {
    || (r.None? && forall i :: 0 <= i < |xs| ==> xs[i].None?)
    || (r.Some? && exists i :: 0 <= i < |xs| && xs[i] == r && forall j :: 0 <= j < i ==> xs[j].None?)
  }

  ghost predicate IsLastSome<T>(xs: seq<Option<T>>, r: Option<T>) {
    || (r.None? && forall i :: 0 <= i < |xs| ==> xs[i].None?)
    || (r.Some? && exists i :: 0 <= i < |xs| && xs[i] == r && forall j :: i < j < |xs| ==> xs[j].None?)
  }

  function Starts(polls: seq<Payload>): (r: seq<Option<string>>)
    ensures |r| == |polls| && forall i :: 0 <= i < |r| ==> r[i] == polls[i].startedAt
  {
    seq(|polls|, i requires 0 <= i < |polls| => polls[i].startedAt)
  }

  function Finishes(polls: seq<Payload>): (r: seq<Option<string>>)
    ensures |r| == |polls| && forall i :: 0 <= i < |r| ==> r[i] == polls[i].finishedAt
  {
    seq(|polls|, i requires 0 <= i < |polls| => polls[i].finishedAt)
  }

  /** What polls make of a row: the latest status, cost and GPU time, the earliest start
      and the latest end anybody reported. */
  ghost predicate RowAfter(row: RunRow, polls: seq<Payload>, after: RunRow) {
    && (polls == [] ==> after == row)
    && (polls != [] ==>
          var p := polls[|polls| - 1];
          && after.status == p.status && after.cost == p.cost
          && after.gpuSeconds == if p.gpuSeconds.Some? then p.gpuSeconds.value else 0.0)
    && IsFirstSome([row.startedAt] + Starts(polls), after.startedAt)
    && IsLastSome([row.finishedAt] + Finishes(polls), after.finishedAt)
  }

  lemma FirstSomeMerge<T>(a: Option<T>, b: Option<T>, rest: seq<Option<T>>, r: Option<T>)
    requires IsFirstSome([Or(a, b)] + rest, r)
    ensures IsFirstSome([a, b] + rest, r)
  {
    var xs, ys := [Or(a, b)] + rest, [a, b] + rest;
    assert forall i :: 1 <= i < |xs| ==> xs[i] == ys[i + 1];
    if r.Some? {
      var i :| 0 <= i < |xs| && xs[i] == r && forall j :: 0 <= j < i ==> xs[j].None?;
      if i > 0 {
        assert xs[0].None?;
        forall j | 0 <= j < i + 1 ensures ys[j].None? {
          assert j >= 2 ==> xs[j - 1].None?;
        }
        assert ys[i + 1] == r;
      } else if a.Some? {
        assert ys[0] == r;
      } else {
        assert ys[1] == r;
      }
    } else {
      assert xs[0].None?;
      forall i | 0 <= i < |ys| ensures ys[i].None? {
        assert i >= 2 ==> xs[i - 1].None?;
      }
    }
  }

  lemma LastSomeMerge<T>(a: Option<T>, b: Option<T>, rest: seq<Option<T>>, r: Option<T>)
    requires IsLastSome([Or(b, a)] + rest, r)
    ensures IsLastSome([a, b] + rest, r)
  {
    var xs, ys := [Or(b, a)] + rest, [a, b] + rest;
    assert forall i :: 1 <= i < |xs| ==> xs[i] == ys[i + 1];
    if r.Some? {
      var i :| 0 <= i < |xs| && xs[i] == r && forall j :: i < j < |xs| ==> xs[j].None?;
      var at := if i > 0 then i + 1 else if b.Some? then 1 else 0;
      assert ys[at] == r;
      forall j | at < j < |ys| ensures ys[j].None? {
        assert j >= 2 ==> ys[j] == xs[j - 1];
      }
    } else {
      assert xs[0].None?;
      forall i | 0 <= i < |ys| ensures ys[i].None? {
        assert i >= 2 ==> xs[i - 1].None?;
      }
    }
  }

  lemma RowAfterOne(row: RunRow, p: Payload, polls: seq<Payload>, after: RunRow)
    requires RowAfter(UpdateRow(row, p), polls, after)
    ensures RowAfter(row, [p] + polls, after)
  {
    hide IsFirstSome, IsLastSome;
    var all := [p] + polls;
    FirstSomeMerge(row.startedAt, p.startedAt, Starts(polls), after.startedAt);
    LastSomeMerge(row.finishedAt, p.finishedAt, Finishes(polls), after.finishedAt);
    assert [row.startedAt, p.startedAt] + Starts(polls) == [row.startedAt] + Starts(all);
    assert [row.finishedAt, p.finishedAt] + Finishes(polls) == [row.finishedAt] + Finishes(all);
    assert polls != [] ==> all[|all| - 1] == polls[|polls| - 1];
  }

  lemma RowAfterNone(row: RunRow)
    ensures RowAfter(row, [], row)
  {
    assert ([row.startedAt] + Starts([]))[0] == row.startedAt;
    assert ([row.finishedAt] + Finishes([]))[0] == row.finishedAt;
  }

  /** A run's row depends only on the committed polls of that run, through every failure
      and restart. */
  lemma {:induction false} RowFollowsPolls(w: World, steps: seq<Step>, run: RunId)
    requires Runs(w, steps) && run in w.db.runs
    ensures run in After(w, steps).db.runs
    ensures RowAfter(w.db.runs[run], PollsOf(Committed(steps), run), After(w, steps).db.runs[run])
    decreases |steps|
  {
    hide RowAfter, UpdateRow, NextLast, Announce;
    if steps == [] {
      RowAfterNone(w.db.runs[run]);
    } else {
      var step, w1 := steps[0], Next(w, steps[0]);
      var more := PollsOf(Committed(steps[1..]), run);
      RowFollowsPolls(w1, steps[1..], run);
      if step.Commits? || step.CrashAfterCommit? {
        assert Committed(steps)[1..] == Committed(steps[1..]);
        if step.run == run {
          assert w1.db.runs[run] == UpdateRow(w.db.runs[run], step.payload);
          RowAfterOne(w.db.runs[run], step.payload, more, After(w, steps).db.runs[run]);
        }
      }
    }
  }

  // ---- Replay -----------------------------------------------------------------------

  /** One task working through a history of polls, from any step. */
  function Replay(db: Db, run: RunId, last: I64, history: seq<Payload>): Db
    decreases |history|
  {
    if history == [] then db
    else Replay(Commit(db, run, history[0], last), run, NextLast(history[0], last), history[1..])
  }

  /** Rows at or before the current step are out of reach. */
  lemma {:induction false} ReplayKeepsOldRows(db: Db, run: RunId, last: I64, history: seq<Payload>, k: Key)
    requires k in db.metrics && (k.run == run ==> k.step <= last)
    ensures k in Replay(db, run, last, history).metrics
    ensures Replay(db, run, last, history).metrics[k] == db.metrics[k]
    decreases |history|
  {
    if history != [] {
      var p := history[0];
      UpsertKeys(db.metrics, run, Candidate(p, last), PairsOf(p), k);
      ReplayKeepsOldRows(Commit(db, run, p, last), run, NextLast(p, last), history[1..], k);
    }
  }

  /** A database whose metric table already holds what a history wrote is left as
      it is by that history. */
  lemma {:induction false} ReplayOverResult(db: Db, run: RunId, last: I64, history: seq<Payload>, d: Db)
    requires d.metrics == Replay(db, run, last, history).metrics
    ensures Replay(d, run, last, history).metrics == d.metrics
    decreases |history|
  {
    if history != [] {
      var p := history[0];
      var db1, last1 := Commit(db, run, p, last), NextLast(p, last);
      if Writes(p, last) {
        var pairs, step := PairsOf(p), Candidate(p, last);
        PairsDistinct(p);
        UpsertHolds(db.metrics, run, step, pairs);
        forall i | 0 <= i < |pairs|
          ensures var k := Key(run, step, pairs[i].0); k in d.metrics && d.metrics[k] == pairs[i].1
        {
          ReplayKeepsOldRows(db1, run, last1, history[1..], Key(run, step, pairs[i].0));
        }
        UpsertAgain(d.metrics, run, step, pairs);
      }
      ReplayOverResult(db1, run, last1, history[1..], Commit(d, run, p, last));
    }
  }

  /** Replaying a whole history from the step it started at, over the table that
      history built, is harmless: also from -1 when the recovery query failed. */
  lemma ReplayIsHarmless(db: Db, run: RunId, last: I64, history: seq<Payload>)
    ensures var built := Replay(db, run, last, history);
            Replay(built, run, last, history).metrics == built.metrics
  {
    ReplayOverResult(db, run, last, history, Replay(db, run, last, history));
  }
}
