/** The reconciliation pass: run rows against the training service's jobs and the
    supervisor's tracked runs, with a cool-down per failing run. */
module Reconcile {
  import opened Text
  import opened RunStatus

  type RunId = string
  type JobId = string
  type Time = real

  /** What a reply may carry besides the status; only present fields are copied. */
  datatype Signals = Signals(reward: Option<real>, correct: Option<real>, checkpoint: Option<string>)

  datatype Run = Run(id: RunId, job: Option<JobId>, status: Status, signals: Signals)

  /** A poll: a job whose status may be one the backend does not know, the service's own
      error, or any other exception. */
  datatype Reply = Job(status: Option<Status>, signals: Signals) | ServiceError(at: Time) | Raised

  datatype Call = Track(id: RunId, job: Option<JobId>) | Untrack(id: RunId)

  const BACKOFF_CAP := 300.0

  predicate Active(r: Run) {
    (r.status == Queued || r.status == Running) && r.job.Some?
  }

  // ---- Waiting times --------------------------------------------------------------------

  /** `base * 2 ** failures`. */
  function Doubled(base: Time, failures: nat): Time {
    if failures == 0 then base else 2.0 * Doubled(base, failures - 1)
  }

  function Backoff(base: Time, failures: nat): Time {
    var wait := Doubled(base, failures);
    if wait < BACKOFF_CAP then wait else BACKOFF_CAP
  }

  /** Waits never shrink as failures follow each other, and never exceed the cap. */
  lemma {:induction false} BackoffGrows(base: Time, m: nat, n: nat)
    requires base > 0.0 && m <= n
    ensures 0.0 < Doubled(base, m) <= Doubled(base, n)
    ensures 0.0 < Backoff(base, m) <= Backoff(base, n) <= BACKOFF_CAP
  {
    if m < n {
      BackoffGrows(base, m, n - 1);
    } else if m > 0 {
      BackoffGrows(base, m - 1, m - 1);
    }
  }

  // ---- One run of a pass -------------------------------------------------------------------

  /** A pass under way. */
  datatype Pass = Pass(table: seq<Run>, failures: map<RunId, nat>, nextAt: map<RunId, Time>,
                       calls: seq<Call>, dirty: bool, raised: bool)

  datatype Inputs = Inputs(now: Time, base: Time, tracked: set<RunId>, replies: map<RunId, Reply>)

  predicate Cooling(nextAt: map<RunId, Time>, id: RunId, now: Time) {
    now < if id in nextAt then nextAt[id] else 0.0
  }

  function ReplyFor(replies: map<RunId, Reply>, id: RunId): Reply {
    if id in replies then replies[id] else Raised
  }

  function Copied(was: Signals, now: Signals): Signals {
    Signals(if now.reward.Some? then now.reward else was.reward,
            if now.correct.Some? then now.correct else was.correct,
            if now.checkpoint.Some? then now.checkpoint else was.checkpoint)
  }

  /** `_refresh_run_status` and the status write: unknown statuses are ignored. */
  function Refreshed(run: Run, reply: Reply): Run
    requires reply.Job?
  {
    run.(signals := Copied(run.signals, reply.signals),
         status := if reply.status.Some? then reply.status.value else run.status)
  }

  /** The supervisor is told about a run it misses or should forget. */
  function CallsFor(run: Run, tracked: set<RunId>): seq<Call> {
    if Terminal(run.status) && run.id in tracked then [Untrack(run.id)]
    else if run.status == Running && run.id !in tracked then [Track(run.id, run.job)]
    else []
  }

  function Polled(p: Pass, i: nat, inp: Inputs): Pass
    requires i < |p.table|
  {
    var run := p.table[i];
    match ReplyFor(inp.replies, run.id)
    case Raised => p.(raised := true)
    case ServiceError(at) =>
      var n := (if run.id in p.failures then p.failures[run.id] else 0) + 1;
      p.(failures := p.failures[run.id := n], nextAt := p.nextAt[run.id := at + Backoff(inp.base, n)])
    case Job(status, signals) =>
      var next := Refreshed(run, Job(status, signals));
      p.(table := p.table[i := next], failures := p.failures - {run.id}, nextAt := p.nextAt - {run.id},
         dirty := p.dirty || next.status != run.status)
  }

  function One(p: Pass, i: nat, inp: Inputs): Pass
    requires i < |p.table|
  {
    var q := if Cooling(p.nextAt, p.table[i].id, inp.now) then p else Polled(p, i, inp);
    if q.raised then q else q.(calls := q.calls + CallsFor(q.table[i], inp.tracked))
  }

  /** The pass after the first `i` rows of the table, in which only active rows count. */
  function Upto(start: Pass, i: nat, inp: Inputs): (p: Pass)
    requires i <= |start.table|
    ensures |p.table| == |start.table|
  {
    if i == 0 then start
    else
      var p := Upto(start, i - 1, inp);
      if p.raised || !Active(start.table[i - 1]) then p else One(p, i - 1, inp)
  }

  function Begin(table: seq<Run>, failures: map<RunId, nat>, nextAt: map<RunId, Time>): Pass {
    Pass(table, failures, nextAt, [], false, false)
  }

  ghost predicate SomeActive(table: seq<Run>) {
    exists i :: 0 <= i < |table| && Active(table[i])
  }

  /** The committed table after a pass: nothing is kept unless some status changed. */
  function Committed(start: Pass, p: Pass): seq<Run> {
    if !p.raised && p.dirty then p.table else start.table
  }

  // ---- Turns of the loop ----------------------------------------------------------------------

  function FullPass(start: Pass, inp: Inputs): Pass {
    Upto(start, |start.table|, inp)
  }

  /** What one turn gets from outside; `status` is the supervisor's answer, None when
      asking it fails. */
  datatype TurnInput = TurnInput(now: Time, status: Option<set<RunId>>, replies: map<RunId, Reply>)

  /** What lives on from turn to turn. */
  datatype Loop = Loop(table: seq<Run>, failures: map<RunId, nat>, nextAt: map<RunId, Time>)

  function AfterTurn(s: Loop, t: TurnInput, base: Time): Loop {
    if t.status.None? then s
    else
      var start := Begin(s.table, s.failures, s.nextAt);
      var p := FullPass(start, Inputs(t.now, base, t.status.value, t.replies));
      Loop(Committed(start, p), p.failures, p.nextAt)
  }

  function AfterTurns(s: Loop, turns: seq<TurnInput>, base: Time): Loop {
    if turns == [] then s
    else AfterTurn(AfterTurns(s, turns[..|turns| - 1], base), turns[|turns| - 1], base)
  }

  lemma {:induction false} IdlePass(start: Pass, i: nat, inp: Inputs)
    requires !SomeActive(start.table) && i <= |start.table|
    ensures Upto(start, i, inp) == start
  {
    if i > 0 {
      IdlePass(start, i - 1, inp);
    }
  }

  lemma IdleTurn(s: Loop, t: TurnInput, base: Time)
    requires !SomeActive(s.table)
    ensures AfterTurn(s, t, base) == s
  {
    if t.status.Some? {
      IdlePass(Begin(s.table, s.failures, s.nextAt), |s.table|, Inputs(t.now, base, t.status.value, t.replies));
    }
  }

  class Reconciler {
    const base: Time
    var table: seq<Run>
    var failures: map<RunId, nat>
    var nextAt: map<RunId, Time>
    var passFailures: nat

    constructor (interval: Time, rows: seq<Run>)
      ensures base == interval && table == rows && failures == map[] && nextAt == map[] && passFailures == 0
    {
      base, table, failures, nextAt, passFailures := interval, rows, map[], map[], 0;
    }

    function Contents(): Loop
      reads this
    {
      Loop(table, failures, nextAt)
    }

    /** `reconciliation_loop`, for as many turns as it is given. */
    method Serve(turns: seq<TurnInput>) returns (sleeps: seq<Time>)
      requires base > 0.0
      modifies this
      ensures Contents() == AfterTurns(old(Contents()), turns, base)
      ensures |sleeps| == |turns| && forall i :: 0 <= i < |sleeps| ==> sleeps[i] == base || 0.0 < sleeps[i] <= BACKOFF_CAP
    {
      hide AfterTurn, Backoff;
      sleeps := [];
      for i := 0 to |turns|
        invariant Contents() == AfterTurns(old(Contents()), turns[..i], base)
        invariant |sleeps| == i
        invariant forall k :: 0 <= k < i ==> sleeps[k] == base || 0.0 < sleeps[k] <= BACKOFF_CAP
      {
        assert turns[..i + 1][..i] == turns[..i];
        var sleep, _ := Turn(turns[i].now, turns[i].status, turns[i].replies);
        BackoffGrows(base, passFailures, passFailures);
        sleeps := sleeps + [sleep];
      }
      assert turns[..|turns|] == turns;
    }

    /** One turn of `reconciliation_loop`: a pass, and the sleep after it. Sleeps after
        consecutive failed passes never shrink and never exceed the cap. */
    method Turn(now: Time, status: Option<set<RunId>>, replies: map<RunId, Reply>)
      returns (sleep: Time, calls: seq<Call>)
      requires base > 0.0
      modifies this
      ensures Contents() == AfterTurn(old(Contents()), TurnInput(now, status, replies), base)
      ensures sleep == if passFailures == 0 then base else Backoff(base, passFailures)
      ensures passFailures == 0 || passFailures == old(passFailures) + 1
      ensures passFailures > 0 ==> Backoff(base, old(passFailures)) <= sleep <= BACKOFF_CAP
      ensures SomeActive(old(table)) && status.None? ==> passFailures > 0 && table == old(table)
    {
      var raised;
      ghost var before := Contents();
      raised, calls := ReconcileOnce(now, status, replies);
      if !SomeActive(before.table) {
        IdleTurn(before, TurnInput(now, status, replies), base);
      }
      if raised {
        passFailures := passFailures + 1;
        BackoffGrows(base, passFailures - 1, passFailures);
        sleep := Backoff(base, passFailures);
      } else {
        passFailures := 0;
        sleep := base;
      }
    }

    /** One poll and its bookkeeping. */
    method PollRun(run: Run, reply: Reply) returns (raised: bool, next: Run)
      modifies this`failures, this`nextAt
      ensures raised <==> reply.Raised?
      ensures next == if reply.Job? then Refreshed(run, reply) else run
      ensures reply.Raised? ==> failures == old(failures) && nextAt == old(nextAt)
      ensures reply.ServiceError? ==>
        var n := (if run.id in old(failures) then old(failures)[run.id] else 0) + 1;
        failures == old(failures)[run.id := n] && nextAt == old(nextAt)[run.id := reply.at + Backoff(base, n)]
      ensures reply.Job? ==> failures == old(failures) - {run.id} && nextAt == old(nextAt) - {run.id}
    {
      raised, next := false, run;
      match reply {
        case Raised =>
          raised := true;
        case ServiceError(at) =>
          var n := (if run.id in failures then failures[run.id] else 0) + 1;
          failures := failures[run.id := n];
          nextAt := nextAt[run.id := at + Backoff(base, n)];
        case Job(status, signals) =>
          next := next.(signals := Copied(run.signals, signals));
          failures := failures - {run.id};
          nextAt := nextAt - {run.id};
          if status.Some? && status.value != run.status {
            next := next.(status := status.value);
          }
      }
    }

    /** `_reconcile_once`; `status` is the supervisor's answer, None when asking it fails. */
    method ReconcileOnce(now: Time, status: Option<set<RunId>>, replies: map<RunId, Reply>)
      returns (raised: bool, calls: seq<Call>)
      modifies this`table, this`failures, this`nextAt
      ensures !SomeActive(old(table)) ==> !raised
      ensures SomeActive(old(table)) && status.None? ==> raised
      ensures !SomeActive(old(table)) || status.None? ==>
        calls == [] && table == old(table) && failures == old(failures) && nextAt == old(nextAt)
      ensures SomeActive(old(table)) && status.Some? ==>
        var start := Begin(old(table), old(failures), old(nextAt));
        var p := Upto(start, |old(table)|, Inputs(now, base, status.value, replies));
        && raised == p.raised && calls == p.calls && failures == p.failures && nextAt == p.nextAt
        && table == Committed(start, p)
      ensures old(failures).Keys == old(nextAt).Keys ==> failures.Keys == nextAt.Keys
    {
      hide Upto, Refreshed, Backoff, Copied, CallsFor;
      calls := [];
      var anyActive := false;
      for i := 0 to |table|
        invariant anyActive <==> exists k :: 0 <= k < i && Active(table[k])
      {
        if Active(table[i]) {
          anyActive := true;
        }
      }
      if !anyActive {
        return false, [];
      }
      if status.None? {
        return true, [];
      }
      var tracked := status.value;
      ghost var inp := Inputs(now, base, tracked, replies);
      ghost var start := Begin(table, failures, nextAt);
      UptoNothing(start, inp);
      var rows := table;   // the session's objects; the table itself changes on commit
      var dirty := false;
      for i := 0 to |rows|
        invariant table == start.table && |rows| == |table|
        invariant Upto(start, i, inp) == Pass(rows, failures, nextAt, calls, dirty, false)
        invariant inp == Inputs(now, base, tracked, replies)
        invariant forall k :: i <= k < |rows| ==> rows[k] == table[k]
      {
        UptoStep(start, i, inp);
        if Active(rows[i]) {
          var run := rows[i];
          ghost var p := Upto(start, i, inp);
          if !(now < if run.id in nextAt then nextAt[run.id] else 0.0) {
            var broke, next := PollRun(run, ReplyFor(replies, run.id));
            if broke {
              UptoRaised(start, i + 1, |rows|, inp);
              KeysStay(start, i, inp);
              return true, calls;
            }
            dirty := dirty || next.status != run.status;
            rows := rows[i := next];
            run := next;
          }
          assert rows == p.table[i := run];
          calls := calls + CallsFor(run, tracked);
        }
      }
      KeysStay(start, |rows|, inp);
      if dirty {
        table := rows;
      }
      return false, calls;
    }
  }

  lemma {:induction false} UptoRaised(start: Pass, i: nat, n: nat, inp: Inputs)
    requires i <= n <= |start.table| && Upto(start, i, inp).raised
    ensures Upto(start, n, inp) == Upto(start, i, inp)
  {
    if i < n {
      UptoRaised(start, i, n - 1, inp);
    }
  }

  // ---- What every pass keeps ------------------------------------------------------------------

  /** Failure counts and next-attempt times exist for the same runs. */
  lemma {:induction false} PassKeepsKeys(start: Pass, i: nat, inp: Inputs)
    requires i <= |start.table| && start.failures.Keys == start.nextAt.Keys
    ensures Upto(start, i, inp).failures.Keys == Upto(start, i, inp).nextAt.Keys
  {
    hide Upto, Backoff, Refreshed, CallsFor;
    if i == 0 {
      UptoNothing(start, inp);
    } else {
      PassKeepsKeys(start, i - 1, inp);
      UptoStep(start, i - 1, inp);
    }
  }

  lemma KeysStay(start: Pass, i: nat, inp: Inputs)
    requires i <= |start.table|
    ensures start.failures.Keys == start.nextAt.Keys ==>
      Upto(start, i, inp).failures.Keys == Upto(start, i, inp).nextAt.Keys
  {
    hide Upto;
    if start.failures.Keys == start.nextAt.Keys {
      PassKeepsKeys(start, i, inp);
    }
  }

  /** A failed poll counts one more failure and makes the run wait at least as long as
      its previous failure did, and at most the cap. */
  lemma WaitsGrow(p: Pass, i: nat, inp: Inputs, at: Time)
    requires i < |p.table| && inp.base > 0.0
    requires !Cooling(p.nextAt, p.table[i].id, inp.now) && !p.raised
    requires ReplyFor(inp.replies, p.table[i].id) == ServiceError(at)
    ensures var id, q := p.table[i].id, One(p, i, inp);
            && id in q.failures && id in q.nextAt
            && q.failures[id] == (if id in p.failures then p.failures[id] else 0) + 1
            && q.nextAt[id] - at <= BACKOFF_CAP
            && Backoff(inp.base, q.failures[id] - 1) <= q.nextAt[id] - at == Backoff(inp.base, q.failures[id])
  {
    var id, q := p.table[i].id, One(p, i, inp);
    BackoffGrows(inp.base, q.failures[id] - 1, q.failures[id]);
  }

  /** Until its time comes a run is not polled: what its poll would say changes nothing. */
  lemma {:induction false} CoolingIsNotPolled(start: Pass, i: nat, inp: Inputs, id: RunId, reply: Reply)
    requires i <= |start.table| && Cooling(start.nextAt, id, inp.now)
    ensures Upto(start, i, inp.(replies := inp.replies[id := reply])) == Upto(start, i, inp)
    ensures Cooling(Upto(start, i, inp).nextAt, id, inp.now)
  {
    hide Upto;
    var other := inp.(replies := inp.replies[id := reply]);
    if i == 0 {
      UptoNothing(start, inp);
      UptoNothing(start, other);
    } else {
      CoolingIsNotPolled(start, i - 1, inp, id, reply);
      UptoStep(start, i - 1, inp);
      UptoStep(start, i - 1, other);
      CoolingStep(Upto(start, i - 1, inp), i - 1, inp, id, reply);
    }
  }

  lemma CoolingStep(p: Pass, i: nat, inp: Inputs, id: RunId, reply: Reply)
    requires i < |p.table| && Cooling(p.nextAt, id, inp.now)
    ensures One(p, i, inp.(replies := inp.replies[id := reply])) == One(p, i, inp)
    ensures Cooling(One(p, i, inp).nextAt, id, inp.now)
  {
    hide Backoff, Refreshed, CallsFor;
  }

  ghost predicate Distinct(table: seq<Run>) {
    forall i, j :: 0 <= i < j < |table| ==> table[i].id != table[j].id
  }

  /** Rows not yet reached, and rows that are not active, are as they were; no row
      changes its id or its job. */
  lemma {:induction false} RowsAhead(start: Pass, i: nat, inp: Inputs)
    requires i <= |start.table|
    ensures var p := Upto(start, i, inp);
            && (forall k :: i <= k < |p.table| ==> p.table[k] == start.table[k])
            && (forall k :: 0 <= k < |p.table| && !Active(start.table[k]) ==> p.table[k] == start.table[k])
            && (forall k :: 0 <= k < |p.table| ==>
                  p.table[k].id == start.table[k].id && p.table[k].job == start.table[k].job)
  {
    hide Upto, Backoff, CallsFor, Cooling;
    if i == 0 {
      UptoNothing(start, inp);
    } else {
      RowsAhead(start, i - 1, inp);
      UptoStep(start, i - 1, inp);
    }
  }

  // ---- A pass in which everything answers --------------------------------------------------------

  /** Every active run is due, and its poll returns a status the backend knows. */
  ghost predicate AllAnswer(start: Pass, inp: Inputs) {
    forall k :: 0 <= k < |start.table| && Active(start.table[k]) ==> Answers(start.table[k], start.nextAt, inp)
  }

  predicate Answers(run: Run, nextAt: map<RunId, Time>, inp: Inputs) {
    && !Cooling(nextAt, run.id, inp.now)
    && ReplyFor(inp.replies, run.id).Job? && ReplyFor(inp.replies, run.id).status.Some?
  }

  function JobStatus(run: Run, inp: Inputs): Status {
    match ReplyFor(inp.replies, run.id)
    case Job(Some(s), _) => s
    case _ => run.status
  }

  /** The supervisor's set after calls that all succeed. */
  function Supervised(tracked: set<RunId>, calls: seq<Call>): set<RunId> {
    if calls == [] then tracked
    else
      var s := Supervised(tracked, calls[..|calls| - 1]);
      match calls[|calls| - 1]
      case Track(id, _) => s + {id}
      case Untrack(id) => s - {id}
  }

  lemma SupervisedAppend(tracked: set<RunId>, calls: seq<Call>, run: Run)
    ensures var s, c := Supervised(tracked, calls), CallsFor(run, tracked);
            Supervised(tracked, calls + c) ==
              if Terminal(run.status) && run.id in tracked then s - {run.id}
              else if run.status == Running && run.id !in tracked then s + {run.id}
              else s
  {
    var c := CallsFor(run, tracked);
    if c == [] {
      assert calls + c == calls;
    } else {
      assert (calls + c)[..|calls|] == calls;
    }
  }

  /** The row agrees with the job and the supervisor with the row. */
  predicate Agrees(run: Run, s: Status, supervised: set<RunId>) {
    && run.status == s
    && (run.status == Running ==> run.id in supervised)
    && (Terminal(run.status) ==> run.id !in supervised)
  }

  ghost predicate Seen(table: seq<Run>, i: nat, id: RunId) {
    exists k :: 0 <= k < i <= |table| && Active(table[k]) && table[k].id == id
  }

  /** The rows already seen agree. */
  ghost predicate AgreeSoFar(start: Pass, i: nat, p: Pass, inp: Inputs)
    requires i <= |start.table| == |p.table|
  {
    forall k :: 0 <= k < i && Active(start.table[k]) ==>
      Agrees(p.table[k], JobStatus(start.table[k], inp), Supervised(inp.tracked, p.calls))
  }

  /** For runs not yet seen nothing has changed. */
  ghost predicate OthersAsBefore(start: Pass, i: nat, p: Pass, inp: Inputs) {
    forall id :: !Seen(start.table, i, id) ==>
      && (id in Supervised(inp.tracked, p.calls) <==> id in inp.tracked)
      && Cooling(p.nextAt, id, inp.now) == Cooling(start.nextAt, id, inp.now)
  }

  /** The runs seen are due again at once. */
  ghost predicate SeenAreDue(start: Pass, i: nat, p: Pass) {
    forall id :: Seen(start.table, i, id) ==> id !in p.nextAt
  }

  ghost predicate DirtyIfChanged(start: Pass, i: nat, p: Pass, inp: Inputs)
    requires i <= |start.table|
  {
    p.dirty <==> exists k :: 0 <= k < i && Changes(start.table[k], inp)
  }

  ghost predicate Settling(start: Pass, i: nat, p: Pass, inp: Inputs)
    requires i <= |start.table| == |p.table|
  {
    && !p.raised
    && AgreeSoFar(start, i, p, inp)
    && OthersAsBefore(start, i, p, inp)
    && SeenAreDue(start, i, p)
    && DirtyIfChanged(start, i, p, inp)
  }

  predicate Changes(run: Run, inp: Inputs) {
    Active(run) && JobStatus(run, inp) != run.status
  }

  lemma SeenStep(table: seq<Run>, i: nat, id: RunId)
    requires i < |table|
    ensures Seen(table, i + 1, id) <==> Seen(table, i, id) || (Active(table[i]) && table[i].id == id)
  {
  }

  lemma NotYetSeen(table: seq<Run>, i: nat)
    requires Distinct(table) && i < |table|
    ensures !Seen(table, i, table[i].id)
  {
  }

  /** What the step for one answering run does. */
  ghost predicate Handled(p: Pass, q: Pass, i: nat, run: Run, inp: Inputs)
    requires i < |p.table|
  {
    var s := Supervised(inp.tracked, p.calls);
    && !q.raised
    && (exists next: Run :: next.id == run.id && next.status == JobStatus(run, inp)
          && q.table == p.table[i := next]
          && Supervised(inp.tracked, q.calls) ==
               if Terminal(next.status) && run.id in inp.tracked then s - {run.id}
               else if next.status == Running && run.id !in inp.tracked then s + {run.id}
               else s)
    && q.nextAt == p.nextAt - {run.id}
    && q.dirty == (p.dirty || JobStatus(run, inp) != run.status)
  }

  lemma OneHandles(p: Pass, i: nat, inp: Inputs)
    requires i < |p.table| && !p.raised && Answers(p.table[i], p.nextAt, inp)
    ensures Handled(p, One(p, i, inp), i, p.table[i], inp)
  {
    hide Supervised, CallsFor, Copied;
    var q := Polled(p, i, inp);
    SupervisedAppend(inp.tracked, p.calls, q.table[i]);
    var next := q.table[i];
    assert q.table == p.table[i := next];
  }

  lemma AgreeStep(start: Pass, i: nat, p: Pass, q: Pass, inp: Inputs)
    requires Distinct(start.table) && i < |start.table| == |p.table| && Active(start.table[i])
    requires forall k :: 0 <= k < |p.table| ==> p.table[k].id == start.table[k].id
    requires AgreeSoFar(start, i, p, inp) && OthersAsBefore(start, i, p, inp)
    requires Handled(p, q, i, start.table[i], inp)
    ensures |q.table| == |start.table| && AgreeSoFar(start, i + 1, q, inp)
  {
    hide Supervised, Seen;
    NotYetSeen(start.table, i);
  }

  lemma OthersStep(start: Pass, i: nat, p: Pass, q: Pass, inp: Inputs)
    requires i < |start.table| == |p.table| && Active(start.table[i])
    requires OthersAsBefore(start, i, p, inp) && SeenAreDue(start, i, p)
    requires Handled(p, q, i, start.table[i], inp)
    ensures OthersAsBefore(start, i + 1, q, inp) && SeenAreDue(start, i + 1, q)
  {
    hide Supervised, Seen;
    forall id ensures Seen(start.table, i + 1, id) <==> Seen(start.table, i, id) || start.table[i].id == id {
      SeenStep(start.table, i, id);
    }
  }

  lemma IdleStep(start: Pass, i: nat, p: Pass, inp: Inputs)
    requires i < |start.table| == |p.table| && !Active(start.table[i])
    requires Settling(start, i, p, inp)
    ensures Settling(start, i + 1, p, inp)
  {
    hide Supervised, Seen, Agrees;
    forall id ensures Seen(start.table, i + 1, id) <==> Seen(start.table, i, id) {
      SeenStep(start.table, i, id);
    }
  }

  lemma SettlingStep(start: Pass, i: nat, inp: Inputs)
    requires Distinct(start.table) && AllAnswer(start, inp) && i < |start.table|
    requires Settling(start, i, Upto(start, i, inp), inp)
    ensures Settling(start, i + 1, Upto(start, i + 1, inp), inp)
  {
    hide Upto, AllAnswer, One, AgreeSoFar, Seen, Supervised, SeenAreDue;
    var p := Upto(start, i, inp);
    UptoStep(start, i, inp);
    RowsAhead(start, i, inp);
    if Active(start.table[i]) {
      NotYetSeen(start.table, i);
      AnswersAt(start, i, inp);
      assert Answers(p.table[i], p.nextAt, inp);
      OneHandles(p, i, inp);
      var q := One(p, i, inp);
      AgreeStep(start, i, p, q, inp);
      OthersStep(start, i, p, q, inp);
      assert DirtyIfChanged(start, i + 1, q, inp);
    } else {
      IdleStep(start, i, p, inp);
    }
  }

  lemma AnswersAt(start: Pass, i: nat, inp: Inputs)
    requires AllAnswer(start, inp) && i < |start.table| && Active(start.table[i])
    ensures Answers(start.table[i], start.nextAt, inp)
  {
  }

  lemma UptoNothing(start: Pass, inp: Inputs)
    ensures Upto(start, 0, inp) == start
  {
  }

  lemma UptoStep(start: Pass, i: nat, inp: Inputs)
    requires i < |start.table|
    ensures var p := Upto(start, i, inp);
            Upto(start, i + 1, inp) == if p.raised || !Active(start.table[i]) then p else One(p, i, inp)
  {
  }

  lemma {:induction false} Settles(start: Pass, i: nat, inp: Inputs)
    requires Distinct(start.table) && AllAnswer(start, inp) && i <= |start.table|
    requires start.calls == [] && !start.dirty && !start.raised
    ensures Settling(start, i, Upto(start, i, inp), inp)
  {
    hide Settling, AllAnswer;
    if i == 0 {
      SettlingStart(start, inp);
    } else {
      Settles(start, i - 1, inp);
      SettlingStep(start, i - 1, inp);
    }
  }

  lemma SettlingStart(start: Pass, inp: Inputs)
    requires start.calls == [] && !start.dirty && !start.raised
    ensures Settling(start, 0, start, inp)
  {
  }

  ghost predicate Fresh(start: Pass) {
    start.calls == [] && !start.dirty && !start.raised
  }

  /** After a pass in which everything answers and the supervisor obeys, every run that
      was active has its job's status, is tracked if it runs and untracked if it has
      ended; nothing else has changed. */
  lemma PassSettles(start: Pass, inp: Inputs)
    requires Distinct(start.table) && AllAnswer(start, inp) && Fresh(start)
    ensures var p := FullPass(start, inp);
            var t, supervised := Committed(start, p), Supervised(inp.tracked, p.calls);
            && !p.raised
            && (forall k :: 0 <= k < |t| && Active(start.table[k]) ==>
                  Agrees(t[k], JobStatus(start.table[k], inp), supervised))
            && (forall k :: 0 <= k < |t| && !Active(start.table[k]) ==> t[k] == start.table[k])
            && (forall id :: !Seen(start.table, |t|, id) ==> (id in supervised <==> id in inp.tracked))
  {
    hide Upto, Seen, Supervised, AllAnswer, JobStatus;
    Settles(start, |start.table|, inp);
    RowsAhead(start, |start.table|, inp);
    var p := FullPass(start, inp);
    if !p.dirty {
      forall k | 0 <= k < |p.table| && Active(start.table[k])
        ensures JobStatus(start.table[k], inp) == start.table[k].status
      {
        assert !Changes(start.table[k], inp);
      }
    }
  }

  /** Everything is as it should be already. */
  ghost predicate Settled(start: Pass, inp: Inputs) {
    && inp.now >= 0.0
    && forall k :: 0 <= k < |start.table| && Active(start.table[k]) ==>
         && Answers(start.table[k], start.nextAt, inp)
         && Agrees(start.table[k], JobStatus(start.table[k], inp), inp.tracked)
  }

  ghost predicate Shrunk(a: map<RunId, Time>, b: map<RunId, Time>) {
    forall id :: id in b ==> id in a && a[id] == b[id]
  }

  lemma {:induction false} SettledIsQuiet(start: Pass, i: nat, inp: Inputs)
    requires Settled(start, inp) && Fresh(start) && i <= |start.table|
    ensures var p := Upto(start, i, inp);
            p.calls == [] && !p.dirty && !p.raised && Shrunk(start.nextAt, p.nextAt)
  {
    hide Upto;
    if i == 0 {
      UptoNothing(start, inp);
    } else {
      SettledIsQuiet(start, i - 1, inp);
      UptoStep(start, i - 1, inp);
      RowsAhead(start, i - 1, inp);
      var p, run := Upto(start, i - 1, inp), start.table[i - 1];
      if Active(run) {
        assert Answers(run, start.nextAt, inp);
        assert p.table[i - 1] == run;
        QuietStep(p, i - 1, inp);
      }
    }
  }

  lemma QuietStep(p: Pass, i: nat, inp: Inputs)
    requires i < |p.table| && p.calls == [] && !p.dirty && !p.raised
    requires Answers(p.table[i], p.nextAt, inp)
    requires Active(p.table[i]) && Agrees(p.table[i], JobStatus(p.table[i], inp), inp.tracked)
    ensures var q := One(p, i, inp);
            q.calls == [] && !q.dirty && !q.raised && Shrunk(p.nextAt, q.nextAt)
  {
  }

  /** The same reply, or one with the same known status. */
  ghost predicate SameStatuses(table: seq<Run>, a: Inputs, b: Inputs) {
    forall k :: 0 <= k < |table| && Active(table[k]) ==>
      && ReplyFor(b.replies, table[k].id).Job? && ReplyFor(b.replies, table[k].id).status.Some?
      && JobStatus(table[k], b) == JobStatus(table[k], a)
  }

  /** A second pass against the same job statuses calls the supervisor for nothing and
      changes no row. */
  lemma RepeatIsQuiet(start: Pass, inp: Inputs, again: Inputs)
    requires Distinct(start.table) && AllAnswer(start, inp) && Fresh(start)
    requires SameStatuses(start.table, inp, again) && again.now >= 0.0
    requires again.tracked == Supervised(inp.tracked, FullPass(start, inp).calls)
    ensures var p := FullPass(start, inp);
            var second := Begin(Committed(start, p), p.failures, p.nextAt);
            var q := FullPass(second, again);
            q.calls == [] && !q.raised && Committed(second, q) == second.table
  {
    hide Upto, Supervised, AllAnswer;
    var p := FullPass(start, inp);
    var second := Begin(Committed(start, p), p.failures, p.nextAt);
    PassSettles(start, inp);
    Settles(start, |start.table|, inp);
    RowsAhead(start, |start.table|, inp);
    forall k | 0 <= k < |second.table| && Active(second.table[k])
      ensures Answers(second.table[k], second.nextAt, again)
      ensures Agrees(second.table[k], JobStatus(second.table[k], again), again.tracked)
    {
      assert Active(start.table[k]);
      AnswersAt(start, k, inp);
      assert Seen(start.table, |start.table|, start.table[k].id);
    }
    SettledIsQuiet(second, |second.table|, again);
  }

  // ---- Which calls are made ------------------------------------------------------------------------

  ghost predicate Wanted(start: Pass, i: nat, p: Pass, tracked: set<RunId>, c: Call)
    requires i <= |start.table| == |p.table|
  {
    exists k :: 0 <= k < i && Active(start.table[k]) && c in CallsFor(p.table[k], tracked)
  }

  lemma WantedStep(start: Pass, i: nat, p: Pass, q: Pass, tracked: set<RunId>, c: Call)
    requires i < |start.table| == |p.table| == |q.table|
    requires forall k :: 0 <= k < i ==> q.table[k] == p.table[k]
    ensures Wanted(start, i + 1, q, tracked, c)
       <==> Wanted(start, i, p, tracked, c) || (Active(start.table[i]) && c in CallsFor(q.table[i], tracked))
  {
    hide CallsFor;
    if Wanted(start, i, p, tracked, c) {
      var k :| 0 <= k < i && Active(start.table[k]) && c in CallsFor(p.table[k], tracked);
      assert c in CallsFor(q.table[k], tracked);
    }
  }

  /** For any replies, the calls of a pass that ends are exactly those its runs' final
      rows want: forget the ended runs that are tracked, track, under their own job, the
      running ones that are not. */
  lemma {:induction false} CallsExactly(start: Pass, i: nat, inp: Inputs, c: Call)
    requires Fresh(start) && i <= |start.table| && !Upto(start, i, inp).raised
    ensures c in Upto(start, i, inp).calls <==> Wanted(start, i, Upto(start, i, inp), inp.tracked, c)
  {
    hide Upto, CallsFor, Wanted;
    if i == 0 {
      UptoNothing(start, inp);
      NoneWanted(start, start, inp.tracked, c);
    } else {
      var p := Upto(start, i - 1, inp);
      UptoStep(start, i - 1, inp);
      CallsExactly(start, i - 1, inp, c);
      OneRow(p, i - 1, inp);
      WantedStep(start, i - 1, p, Upto(start, i, inp), inp.tracked, c);
    }
  }

  lemma NoneWanted(start: Pass, p: Pass, tracked: set<RunId>, c: Call)
    requires |start.table| == |p.table|
    ensures !Wanted(start, 0, p, tracked, c)
  {
  }

  lemma OneRow(p: Pass, i: nat, inp: Inputs)
    requires i < |p.table|
    ensures |One(p, i, inp).table| == |p.table|
    ensures forall k :: 0 <= k < |p.table| && k != i ==> One(p, i, inp).table[k] == p.table[k]
    ensures !One(p, i, inp).raised ==> One(p, i, inp).calls == p.calls + CallsFor(One(p, i, inp).table[i], inp.tracked)
  {
    hide CallsFor, Backoff;
  }

  // ---- What is kept of a pass ----------------------------------------------------------------------

  ghost predicate SomeStatusChanged(a: seq<Run>, b: seq<Run>)
    requires |a| == |b|
  {
    exists k :: 0 <= k < |a| && a[k].status != b[k].status
  }

  lemma {:induction false} DirtyIffStatusChanged(start: Pass, i: nat, inp: Inputs)
    requires i <= |start.table| && Fresh(start)
    ensures Upto(start, i, inp).dirty <==> SomeStatusChanged(start.table, Upto(start, i, inp).table)
  {
    hide Upto;
    if i == 0 {
      UptoNothing(start, inp);
    } else {
      DirtyIffStatusChanged(start, i - 1, inp);
      UptoStep(start, i - 1, inp);
      RowsAhead(start, i - 1, inp);
      DirtyStep(start, Upto(start, i - 1, inp), i - 1, inp);
    }
  }

  lemma DirtyStep(start: Pass, p: Pass, i: nat, inp: Inputs)
    requires i < |p.table| == |start.table| && p.table[i] == start.table[i]
    requires p.dirty <==> SomeStatusChanged(start.table, p.table)
    ensures One(p, i, inp).dirty <==> SomeStatusChanged(start.table, One(p, i, inp).table)
  {
    hide CallsFor, Backoff, Cooling;
    var q := One(p, i, inp);
    if SomeStatusChanged(start.table, p.table) {
      var k :| 0 <= k < |p.table| && start.table[k].status != p.table[k].status;
      assert q.table[k].status == p.table[k].status;
    }
  }

  /** Signals copied from the replies reach the database exactly when the pass ends and
      some run's status changed in it; otherwise they are dropped with the session. */
  lemma SignalsNeedAStatusChange(start: Pass, inp: Inputs)
    requires Fresh(start)
    ensures var p := FullPass(start, inp);
            Committed(start, p) ==
              if !p.raised && SomeStatusChanged(start.table, p.table) then p.table else start.table
  {
    DirtyIffStatusChanged(start, |start.table|, inp);
  }

  /** So the signals of a run that just keeps running are copied in every pass and never
      stored. */
  lemma SignalsDropped(run: Run, inp: Inputs, signals: Signals)
    requires Active(run) && inp.now >= 0.0
    requires ReplyFor(inp.replies, run.id) == Job(Some(run.status), signals)
    ensures var start := Begin([run], map[], map[]);
            var p := FullPass(start, inp);
            p.table == [run.(signals := Copied(run.signals, signals))] && Committed(start, p) == [run]
  {
    hide Upto;
    var start := Begin([run], map[], map[]);
    UptoNothing(start, inp);
    UptoStep(start, 0, inp);
  }
}
