/** Creating and promoting runs: the preflight gate, the training service's job, the row,
    and the hand-off to the supervisor with its rollback. */
module RunGate {
  import opened Text
  import opened RunStatus
  import opened PreflightRules

  datatype Request = Request(plan: Plan, gpuType: string, gpuCount: int, isSandbox: bool,
                             preflight: Raw, sandboxRunId: Option<RunId>)

  datatype Promotion = Promotion(gpuType: string, gpuCount: int, summary: string)

  /** What the outside contributes to the checks of one request. */
  datatype World = World(agent: Agent, now: Time, withinBudget: bool)

  datatype JobOutcome = JobCreated(id: Option<JobId>) | NoKey | ServiceError | OtherError

  /** What comes back of one POST: nothing that can be used (an error, a lost or garbled
      reply), an object that names a job or none, or something that is no object. */
  datatype Reply = NoReply | Object(id: Option<JobId>) | NoObject

  /** One POST: the job the service made, if any, and what comes back. */
  datatype Attempt = Attempt(made: Option<JobId>, reply: Reply)

  datatype Key = HasKey | Keyless | KeyFails

  /** POSTs are repeated as long as nothing comes back, three times at most. */
  const MAX_POSTS: nat := 3

  /** A request past its checks: the row to be, the POSTs so far, and whether one of them
      was answered. */
  datatype Draft = Draft(row: Run, posts: nat, made: bool)

  /** `admitted` are the requests between their checks and the commit of their row,
      `pending` the rows whose hand-off is under way. */
  datatype State = State(runs: map<RunId, Run>, created: set<JobId>, cancelAsked: set<JobId>,
                         admitted: map<RunId, Draft>, pending: set<RunId>)

  const START := State(map[], {}, {}, map[], {})

  // ---- The gate ----------------------------------------------------------------------------

  function GateError(runs: map<RunId, Run>, req: Request, w: World): Option<Refusal> {
    if req.isSandbox || !IsScale(req.gpuType, req.gpuCount) then None
    else if ParseError(req.preflight).Some? then ParseError(req.preflight)
    else
      var p := req.preflight.preflight;
      var lineage := LineageError(runs, p.sandboxRunId, w.agent, w.now);
      if lineage.Some? then lineage
      else if req.sandboxRunId.Some? && req.sandboxRunId.value != "" && req.sandboxRunId.value != p.sandboxRunId then
        Some(SandboxIdMismatch)
      else None
  }

  function BudgetError(w: World): Option<Refusal> {
    if w.withinBudget then None else Some(BudgetExceeded)
  }

  function JobError(job: JobOutcome): Option<Refusal> {
    match job
    case JobCreated(_) => None
    case NoKey => Some(KeyMissing)
    case ServiceError => Some(TinkerUnavailable)
    case OtherError => Some(ServerError)
  }

  function CreateError(runs: map<RunId, Run>, req: Request, w: World): Option<Refusal> {
    if GateError(runs, req, w).Some? then GateError(runs, req, w) else BudgetError(w)
  }

  function CreatedRow(req: Request, w: World): Run {
    Run(w.agent, req.plan, req.gpuType, req.gpuCount, req.isSandbox, req.preflight, req.sandboxRunId,
        None, Queued, w.now, None, None)
  }

  /** The preflight a promotion builds from the sandbox row. */
  function BuiltPreflight(sandbox: Run, id: RunId, req: Promotion): Preflight {
    Declared(sandbox.plan, id, req.summary, 0.0)
  }

  function PromoteError(runs: map<RunId, Run>, id: RunId, req: Promotion, w: World): Option<Refusal> {
    if id !in runs then Some(RunNotFound)
    else
      var sandbox := runs[id];
      if sandbox.owner != w.agent then Some(NotOwner)
      else if !sandbox.isSandbox then Some(NotASandbox)
      else if sandbox.status != Succeeded then Some(SandboxNotSucceeded)
      else if !ValidSchema(BuiltPreflight(sandbox, id, req)) then Some(PreflightBuildFailed)
      else if LineageError(runs, id, w.agent, w.now).Some? then LineageError(runs, id, w.agent, w.now)
      else BudgetError(w)
  }

  function PromotedRow(sandbox: Run, id: RunId, req: Promotion, w: World): Run {
    Run(w.agent, sandbox.plan, req.gpuType, req.gpuCount, false, Fields(BuiltPreflight(sandbox, id, req)),
        Some(id), None, Queued, w.now, None, None)
  }

  // ---- The training service -------------------------------------------------------------------

  /** What `create_job` comes to. `_request` gives up with tenacity's own error, which no
      handler knows. */
  function OutcomeOf(key: Key, attempts: seq<Attempt>): JobOutcome {
    match key
    case Keyless => NoKey
    case KeyFails => OtherError
    case HasKey => OutcomeOfPosts(attempts)
  }

  function OutcomeOfPosts(attempts: seq<Attempt>): JobOutcome {
    if attempts == [] then OtherError
    else
      match attempts[0].reply
      case NoReply => OutcomeOfPosts(attempts[1..])
      case Object(id) => JobCreated(id)
      case NoObject => OtherError
  }

  function MadeBy(a: Attempt): set<JobId> {
    if a.made.Some? then {a.made.value} else {}
  }

  /** The jobs that exist afterwards because of the call. */
  function JobsOf(key: Key, attempts: seq<Attempt>): set<JobId> {
    if key.HasKey? then JobsOfPosts(attempts) else {}
  }

  function JobsOfPosts(attempts: seq<Attempt>): set<JobId> {
    if attempts == [] then {}
    else MadeBy(attempts[0]) + (if attempts[0].reply.NoReply? then JobsOfPosts(attempts[1..]) else {})
  }

  /** `create_job` with the retrying `_request`: the handlers' case of a service error
      never occurs. */
  method CreateJob(key: Key, attempts: seq<Attempt>) returns (job: JobOutcome, posts: nat)
    requires |attempts| == 3
    ensures job == OutcomeOf(key, attempts) && job != ServiceError && posts <= 3
    ensures forall k :: 0 <= k < posts - 1 ==> attempts[k].reply.NoReply?
    ensures job.JobCreated? ==> posts > 0 && attempts[posts - 1].reply == Object(job.id)
  {
    posts := 0;
    match key {
      case Keyless => return NoKey, 0;
      case KeyFails => return OtherError, 0;
      case HasKey =>
        for i := 0 to MAX_POSTS
          invariant posts == i && forall k :: 0 <= k < i ==> attempts[k].reply.NoReply?
          invariant OutcomeOfPosts(attempts) == OutcomeOfPosts(attempts[i..])
        {
          posts := i + 1;
          assert attempts[i..][0] == attempts[i] && attempts[i..][1..] == attempts[i + 1..];
          match attempts[i].reply {
            case Object(id) => return JobCreated(id), posts;
            case NoObject => return OtherError, posts;
            case NoReply =>
          }
        }
        return OtherError, posts;
    }
  }

  // ---- Who may create and promote -------------------------------------------------------------

  /** The budget holds, and for a scale run outside a sandbox there is valid evidence from a
      sandbox that justifies it, the one the request itself names if it names one. */
  ghost predicate CreateMay(runs: map<RunId, Run>, req: Request, w: World) {
    && w.withinBudget
    && (NeedsGate(req.gpuType, req.gpuCount, req.isSandbox) ==>
          && IsEvidence(req.preflight)
          && Justifies(runs, req.preflight.preflight.sandboxRunId, w.agent, w.now)
          && (req.sandboxRunId.None? || req.sandboxRunId.value == ""
              || req.sandboxRunId.value == req.preflight.preflight.sandboxRunId))
  }

  /** A request passes if it may, is never refused for its preflight unless it needs one,
      and for the budget only if nothing else is wrong. */
  lemma CreateAnswer(runs: map<RunId, Run>, req: Request, w: World)
    ensures CreateError(runs, req, w).None? <==> CreateMay(runs, req, w)
    ensures !NeedsGate(req.gpuType, req.gpuCount, req.isSandbox) && CreateError(runs, req, w).Some? ==>
      CreateError(runs, req, w) == Some(BudgetExceeded)
    ensures CreateError(runs, req, w) == Some(BudgetExceeded) <==>
      !w.withinBudget && CreateMay(runs, req, w.(withinBudget := true))
    ensures NeedsGate(req.gpuType, req.gpuCount, req.isSandbox) ==>
      && (CreateError(runs, req, w) == Some(PreflightMissing) <==> req.preflight.Absent?)
      && (CreateError(runs, req, w) == Some(PreflightInvalid) <==> !req.preflight.Absent? && !IsEvidence(req.preflight))
  {
    hide ValidSchema, IsEvidence, Justifies, IsScale, LineageError;
    ScaleIff(req.gpuType, req.gpuCount);
    ParsesIff(req.preflight);
    if req.preflight.Fields? {
      var id := req.preflight.preflight.sandboxRunId;
      LineageAcceptsIff(runs, id, w.agent, w.now);
      LineageReasons(runs, id, w.agent, w.now);
      LineageKinds(runs, id, w.agent, w.now);
    }
  }

  lemma LineageKinds(runs: map<RunId, Run>, id: RunId, agent: Agent, now: Time)
    ensures var r := LineageError(runs, id, agent, now);
            r != Some(BudgetExceeded) && r != Some(PreflightMissing) && r != Some(PreflightInvalid)
  {
  }

  /** The sandbox is this agent's, has succeeded, makes valid evidence and is at most a day
      old, and the budget holds. */
  ghost predicate PromoteMay(runs: map<RunId, Run>, id: RunId, req: Promotion, w: World) {
    && w.withinBudget && id in runs && runs[id].status == Succeeded
    && Justifies(runs, id, w.agent, w.now)
    && IsEvidence(Fields(Declared(runs[id].plan, id, req.summary, 0.0)))
  }

  lemma PromoteAnswer(runs: map<RunId, Run>, id: RunId, req: Promotion, w: World)
    ensures PromoteError(runs, id, req, w).None? <==> PromoteMay(runs, id, req, w)
    ensures PromoteError(runs, id, req, w) == Some(RunNotFound) <==> id !in runs
    ensures PromoteError(runs, id, req, w) == Some(NotOwner) <==> id in runs && runs[id].owner != w.agent
    ensures PromoteError(runs, id, req, w) == Some(BudgetExceeded) <==>
      !w.withinBudget && PromoteMay(runs, id, req, w.(withinBudget := true))
  {
    hide ValidSchema, IsEvidence;
    if id in runs {
      ParsesIff(Fields(Declared(runs[id].plan, id, req.summary, 0.0)));
      LineageAcceptsIff(runs, id, w.agent, w.now);
      LineageKinds(runs, id, w.agent, w.now);
    }
  }

  // ---- Steps -------------------------------------------------------------------------------

  /** What happens between two suspensions of a handler, or elsewhere. */
  datatype Step =
    | Create(id: RunId, req: Request, world: World)               // the checks of `create_run`
    | Promote(id: RunId, sandbox: RunId, promotion: Promotion, world: World)
    | KeyFailed(id: RunId)                                        // no key for the training service
    | Posted(id: RunId, attempt: Attempt)                         // one POST to it
    | Commits(id: RunId, now: Time)                               // the row is committed
    | Lost(id: RunId)                                             // the handler dies before that
    | HandedOff(id: RunId)                                        // accepted, or retries used up
    | RolledBack(id: RunId)                                       // refused: cancel the job, delete the row
    | Update(id: RunId, status: Status, started: Option<Time>, finished: Option<Time>)  // any later status write

  /** Run ids are new: they are random. */
  predicate Enabled(s: State, step: Step) {
    match step
    case Create(id, _, _) => id !in s.runs && id !in s.admitted
    case Promote(id, _, _, _) => id !in s.runs && id !in s.admitted
    case KeyFailed(id) => id in s.admitted && s.admitted[id].posts == 0 && !s.admitted[id].made
    case Posted(id, _) => id in s.admitted && s.admitted[id].posts < MAX_POSTS && !s.admitted[id].made
    case Commits(id, _) => id in s.admitted && s.admitted[id].made && id !in s.runs
    case Lost(id) => id in s.admitted
    case HandedOff(id) => id in s.pending
    case RolledBack(id) => id in s.pending && id in s.runs
    case Update(id, _, _, _) => id in s.runs
  }

  function Admitted(s: State, id: RunId, row: Run): State {
    s.(admitted := s.admitted[id := Draft(row, 0, false)])
  }

  function WithJob(jobs: set<JobId>, job: Option<JobId>): set<JobId> {
    if job.Some? then jobs + {job.value} else jobs
  }

  function Do(s: State, step: Step): State
    requires Enabled(s, step)
  {
    match step
    case Create(id, req, w) =>
      if CreateError(s.runs, req, w).Some? then s else Admitted(s, id, CreatedRow(req, w))
    case Promote(id, sandbox, req, w) =>
      if PromoteError(s.runs, sandbox, req, w).Some? then s
      else Admitted(s, id, PromotedRow(s.runs[sandbox], sandbox, req, w))
    case KeyFailed(id) => s.(admitted := s.admitted - {id})
    case Posted(id, attempt) =>
      var t := s.(created := s.created + MadeBy(attempt));
      var row, posts := s.admitted[id].row, s.admitted[id].posts + 1;
      (match attempt.reply
       case Object(job) => t.(admitted := t.admitted[id := Draft(row.(job := job), posts, true)])
       case NoReply =>
         if posts < MAX_POSTS then t.(admitted := t.admitted[id := Draft(row, posts, false)])
         else t.(admitted := t.admitted - {id})
       case NoObject => t.(admitted := t.admitted - {id}))
    case Commits(id, now) =>
      s.(runs := s.runs[id := s.admitted[id].row.(created := now)], admitted := s.admitted - {id},
         pending := s.pending + {id})
    case Lost(id) => s.(admitted := s.admitted - {id})
    case HandedOff(id) => s.(pending := s.pending - {id})
    case RolledBack(id) =>
      s.(runs := s.runs - {id}, pending := s.pending - {id}, cancelAsked := WithJob(s.cancelAsked, s.runs[id].job))
    case Update(id, status, started, finished) =>
      s.(runs := s.runs[id := s.runs[id].(status := status, started := started, finished := finished)])
  }

  // ---- The handlers ---------------------------------------------------------------------------

  datatype Answer = Accepted | Refused | Failing

  const MAX_ATTEMPTS: nat := 4

  /** `_hand_off_to_supervisor`: up to four attempts, each retried only when it failed;
      a refusal is the caller's to handle. */
  method HandOff(answers: seq<Answer>) returns (refused: bool, attempts: nat)
    requires |answers| == 4
    ensures 1 <= attempts <= 4
    ensures forall k :: 0 <= k < attempts - 1 ==> answers[k] == Failing
    ensures attempts < 4 ==> answers[attempts - 1] != Failing
    ensures refused <==> answers[attempts - 1] == Refused
  {
    attempts := 0;
    for attempt := 0 to MAX_ATTEMPTS
      invariant attempts == attempt && forall k :: 0 <= k < attempt ==> answers[k] == Failing
    {
      attempts := attempt + 1;
      match answers[attempt] {
        case Refused => return true, attempts;
        case Accepted => return false, attempts;
        case Failing =>
      }
    }
    return false, attempts;
  }

  datatype Response = Made(id: RunId) | Rejected(why: Refusal) | Misconfigured

  /** What the training service, the clock and the supervisor answer after the checks. */
  datatype Rest = Rest(key: Key, attempts: seq<Attempt>, committedAt: Time, answers: seq<Answer>)

  predicate Full(rest: Rest) {
    |rest.answers| == 4 && |rest.attempts| == 3
  }

  predicate Unposted(s: State, id: RunId) {
    id in s.admitted && s.admitted[id].posts == 0 && !s.admitted[id].made && id !in s.runs
  }

  /** The POSTs of an admitted request, one after the other. */
  function AfterPosts(s: State, id: RunId, attempts: seq<Attempt>): State
    decreases |attempts|
  {
    if attempts == [] || !Enabled(s, Posted(id, attempts[0])) then s
    else AfterPosts(Do(s, Posted(id, attempts[0])), id, attempts[1..])
  }

  function AfterCall(s: State, id: RunId, key: Key, attempts: seq<Attempt>): State
    requires Unposted(s, id)
  {
    if key.HasKey? then AfterPosts(s, id, attempts) else Do(s, KeyFailed(id))
  }

  lemma {:induction false} PostsMakeDraft(s: State, id: RunId, attempts: seq<Attempt>)
    requires id in s.admitted && !s.admitted[id].made && s.admitted[id].posts + |attempts| == MAX_POSTS
    requires attempts != []
    ensures var t := AfterPosts(s, id, attempts);
            && t.runs == s.runs && t.cancelAsked == s.cancelAsked && t.pending == s.pending
            && t.created == s.created + JobsOfPosts(attempts)
            && match OutcomeOfPosts(attempts)
               case JobCreated(job) =>
                 && id in t.admitted && t.admitted[id].made && t.admitted[id].row == s.admitted[id].row.(job := job)
                 && t.admitted - {id} == s.admitted - {id}
               case _ => t.admitted == s.admitted - {id}
    decreases |attempts|
  {
    var t := Do(s, Posted(id, attempts[0]));
    assert t.admitted - {id} == s.admitted - {id};
    if attempts[0].reply.NoReply? && |attempts| > 1 {
      PostsMakeDraft(t, id, attempts[1..]);
    } else if attempts[0].reply.NoReply? {
      assert attempts[1..] == [] && OutcomeOfPosts([]) == OtherError && JobsOfPosts([]) == {};
    }
  }

  /** What a call of `create_job` leaves behind. */
  lemma CallMakesDraft(s: State, id: RunId, key: Key, attempts: seq<Attempt>)
    requires Unposted(s, id) && |attempts| == MAX_POSTS
    ensures var t := AfterCall(s, id, key, attempts);
            && t.runs == s.runs && t.cancelAsked == s.cancelAsked && t.pending == s.pending
            && t.created == s.created + JobsOf(key, attempts)
            && t.admitted - {id} == s.admitted - {id}
            && match OutcomeOf(key, attempts)
               case JobCreated(job) =>
                 id in t.admitted && t.admitted[id].made && t.admitted[id].row == s.admitted[id].row.(job := job)
               case _ => t.admitted == s.admitted - {id}
  {
    hide OutcomeOfPosts, JobsOfPosts, AfterPosts;
    if key.HasKey? {
      PostsMakeDraft(s, id, attempts);
    }
  }

  /** Commit and hand-off, or rollback. */
  function AfterHandOff(s: State, id: RunId, row: Run, refused: bool): State {
    s.(runs := if refused then s.runs - {id} else s.runs[id := row], admitted := s.admitted - {id},
       pending := s.pending - {id},
       cancelAsked := if refused then WithJob(s.cancelAsked, row.job) else s.cancelAsked)
  }

  lemma HandOffSteps(s: State, id: RunId, now: Time)
    requires id in s.admitted && s.admitted[id].made && id !in s.runs
    ensures Enabled(s, Commits(id, now))
    ensures var row, t := s.admitted[id].row.(created := now), Do(s, Commits(id, now));
            Enabled(t, RolledBack(id)) && Do(t, RolledBack(id)) == AfterHandOff(s, id, row, true)
    ensures var row, t := s.admitted[id].row.(created := now), Do(s, Commits(id, now));
            Enabled(t, HandedOff(id)) && Do(t, HandedOff(id)) == AfterHandOff(s, id, row, false)
  {
    var row, t := s.admitted[id].row.(created := now), Do(s, Commits(id, now));
    assert t.runs - {id} == s.runs - {id};
    assert t.pending - {id} == s.pending - {id};
  }

  /** The first reply with anything in it is an object that names this job, or none. */
  ghost predicate Names(rest: Rest, job: Option<JobId>) {
    rest.key.HasKey? &&
    exists k :: 0 <= k < |rest.attempts| && rest.attempts[k].reply == Object(job)
             && forall j :: 0 <= j < k ==> rest.attempts[j].reply.NoReply?
  }

  lemma {:induction false} FirstReply(attempts: seq<Attempt>, job: Option<JobId>)
    ensures OutcomeOfPosts(attempts) == JobCreated(job) <==>
      exists k :: 0 <= k < |attempts| && attempts[k].reply == Object(job)
               && forall j :: 0 <= j < k ==> attempts[j].reply.NoReply?
  {
    if attempts != [] {
      FirstReply(attempts[1..], job);
      if attempts[0].reply.NoReply? {
        if k :| 0 <= k < |attempts| && attempts[k].reply == Object(job)
                && forall j :: 0 <= j < k ==> attempts[j].reply.NoReply? {
          assert attempts[1..][k - 1].reply == Object(job);
        }
        if k :| 0 <= k < |attempts[1..]| && attempts[1..][k].reply == Object(job)
                && forall j :: 0 <= j < k ==> attempts[1..][j].reply.NoReply? {
          assert attempts[k + 1].reply == Object(job);
          forall j | 0 <= j < k + 1 ensures attempts[j].reply.NoReply? {
            if j > 0 {
              assert attempts[1..][j - 1].reply.NoReply?;
            }
          }
        }
      }
    }
  }

  lemma {:induction false} PostsFailAlike(attempts: seq<Attempt>)
    ensures OutcomeOfPosts(attempts).JobCreated? || OutcomeOfPosts(attempts) == OtherError
  {
    if attempts != [] {
      PostsFailAlike(attempts[1..]);
    }
  }

  lemma NamesIff(rest: Rest)
    ensures forall job :: Names(rest, job) <==> OutcomeOf(rest.key, rest.attempts) == JobCreated(job)
    ensures (forall job :: !Names(rest, job)) ==>
      JobError(OutcomeOf(rest.key, rest.attempts)) == Some(if rest.key.Keyless? then KeyMissing else ServerError)
  {
    hide OutcomeOfPosts;
    forall job ensures Names(rest, job) <==> OutcomeOf(rest.key, rest.attempts) == JobCreated(job) {
      FirstReply(rest.attempts, job);
    }
    PostsFailAlike(rest.attempts);
    var o := OutcomeOf(rest.key, rest.attempts);
    if o.JobCreated? {
      assert Names(rest, o.id);
    }
  }

  /** An attempt that was made, nothing having come back before, made this job. */
  ghost predicate Makes(rest: Rest, j: JobId) {
    rest.key.HasKey? &&
    exists k :: 0 <= k < |rest.attempts| && rest.attempts[k].made == Some(j)
             && forall i :: 0 <= i < k ==> rest.attempts[i].reply.NoReply?
  }

  lemma {:induction false} JobsOfPostsIff(attempts: seq<Attempt>, j: JobId)
    ensures j in JobsOfPosts(attempts) <==>
      exists k :: 0 <= k < |attempts| && attempts[k].made == Some(j)
               && forall i :: 0 <= i < k ==> attempts[i].reply.NoReply?
  {
    if attempts != [] {
      var more := attempts[1..];
      JobsOfPostsIff(more, j);
      if k :| 0 <= k < |attempts| && attempts[k].made == Some(j)
              && forall i :: 0 <= i < k ==> attempts[i].reply.NoReply? {
        if k > 0 {
          assert more[k - 1].made == Some(j);
          assert forall i :: 0 <= i < k - 1 ==> more[i] == attempts[i + 1];
        }
      }
      if k :| 0 <= k < |more| && more[k].made == Some(j) && forall i :: 0 <= i < k ==> more[i].reply.NoReply? {
        if attempts[0].reply.NoReply? {
          assert attempts[k + 1].made == Some(j);
          assert forall i :: 1 <= i < k + 1 ==> attempts[i] == more[i - 1];
        }
      }
    }
  }

  lemma MakesIff(rest: Rest)
    ensures forall j :: j in JobsOf(rest.key, rest.attempts) <==> Makes(rest, j)
  {
    hide JobsOfPosts;
    forall j ensures j in JobsOf(rest.key, rest.attempts) <==> Makes(rest, j) {
      JobsOfPostsIff(rest.attempts, j);
    }
  }

  /** How a request past its checks ends: every job an attempt made exists; with no job
      named it is rejected, else the row is there, with the first job named, or, refused
      by the supervisor, is gone and that job's cancellation was asked for. */
  ghost predicate Ends(before: State, after: State, id: RunId, row: Run, rest: Rest, r: Response) {
    (forall j :: j in after.created <==> j in before.created || Makes(rest, j)) &&
    if forall job :: !Names(rest, job) then
      && r == Rejected(if rest.key.Keyless? then KeyMissing else ServerError)
      && after.runs == before.runs && after.cancelAsked == before.cancelAsked
    else
      exists job :: Names(rest, job) &&
        if RefusedAtLast(rest.answers) then
          && r == Misconfigured && after.runs == before.runs
          && after.cancelAsked == before.cancelAsked + (if job.Some? then {job.value} else {})
        else
          && r == Made(id) && after.cancelAsked == before.cancelAsked
          && after.runs == before.runs[id := row.(job := job, created := rest.committedAt)]
  }

  lemma EndsOf(before: State, after: State, id: RunId, row: Run, rest: Rest, r: Response)
    requires after.created == before.created + JobsOf(rest.key, rest.attempts)
    requires match OutcomeOf(rest.key, rest.attempts)
             case JobCreated(job) =>
               if RefusedAtLast(rest.answers) then
                 r == Misconfigured && after.runs == before.runs && after.cancelAsked == WithJob(before.cancelAsked, job)
               else
                 && r == Made(id) && after.cancelAsked == before.cancelAsked
                 && after.runs == before.runs[id := row.(job := job, created := rest.committedAt)]
             case o =>
               r == Rejected(JobError(o).value) && after.runs == before.runs && after.cancelAsked == before.cancelAsked
    ensures Ends(before, after, id, row, rest, r)
  {
    hide OutcomeOf, JobsOf, Names, Makes, RefusedAtLast;
    NamesIff(rest);
    MakesIff(rest);
  }

  lemma EndsFrom(before: State, same: State, after: State, id: RunId, row: Run, rest: Rest, r: Response)
    requires Ends(before, after, id, row, rest, r)
    requires same.runs == before.runs && same.created == before.created && same.cancelAsked == before.cancelAsked
    ensures Ends(same, after, id, row, rest, r)
  {
    hide Names, Makes, RefusedAtLast;
  }

  class Api {
    var runs: map<RunId, Run>
    ghost var created: set<JobId>
    ghost var cancelAsked: set<JobId>
    ghost var admitted: map<RunId, Draft>
    ghost var pending: set<RunId>

    constructor ()
      ensures Contents() == START
    {
      runs, created, cancelAsked, admitted, pending := map[], {}, {}, map[], {};
    }

    ghost function Contents(): State
      reads this
    {
      State(runs, created, cancelAsked, admitted, pending)
    }

    /** The steps of an admitted request that is not disturbed. */
    ghost predicate Handled(s: State, id: RunId, rest: Rest, r: Response)
      requires Unposted(s, id)
      reads this
    {
      var s1 := AfterCall(s, id, rest.key, rest.attempts);
      var failed := JobError(OutcomeOf(rest.key, rest.attempts));
      if failed.Some? then r == Rejected(failed.value) && Contents() == s1
      else
        Enabled(s1, Commits(id, rest.committedAt)) &&
        var s2 := Do(s1, Commits(id, rest.committedAt));
        if RefusedAtLast(rest.answers) then r == Misconfigured && Contents() == Do(s2, RolledBack(id))
        else r == Made(id) && Contents() == Do(s2, HandedOff(id))
    }

    /** The end of both handlers, from the checks on. */
    method Finish(id: RunId, draft: Run, rest: Rest) returns (r: Response)
      requires id in admitted && admitted[id] == Draft(draft, 0, false) && id !in runs && Full(rest)
      modifies this
      ensures Handled(old(Contents()), id, rest, r)
      ensures r.Rejected? <==> JobError(OutcomeOf(rest.key, rest.attempts)).Some?
      ensures created == old(created) + JobsOf(rest.key, rest.attempts)
      ensures Ends(old(Contents()), Contents(), id, draft, rest, r)
      ensures r.Rejected? ==>
        runs == old(runs) && cancelAsked == old(cancelAsked) && pending == old(pending)
        && admitted == old(admitted) - {id}
    {
      hide OutcomeOf, JobsOf, AfterCall, Do, Enabled, RefusedAtLast, Ends;
      CallMakesDraft(Contents(), id, rest.key, rest.attempts);
      var job, posts := CreateJob(rest.key, rest.attempts);
      ghost var s1 := AfterCall(Contents(), id, rest.key, rest.attempts);
      created, admitted := s1.created, s1.admitted;
      var failed := JobError(job);
      if failed.Some? {
        r := Rejected(failed.value);
        EndsOf(old(Contents()), Contents(), id, draft, rest, r);
        return;
      }
      HandOffSteps(s1, id, rest.committedAt);
      var row := draft.(job := job.id, created := rest.committedAt);
      admitted := admitted - {id};
      runs := runs[id := row];
      pending := pending + {id};
      var refused, attempts := HandOff(rest.answers);
      LastAnswer(rest.answers, refused, attempts);
      pending := pending - {id};
      if refused {
        cancelAsked := WithJob(cancelAsked, row.job);
        runs := runs - {id};
      }
      assert Contents().runs == AfterHandOff(s1, id, row, refused).runs;
      assert Contents().pending == AfterHandOff(s1, id, row, refused).pending;
      assert Contents() == AfterHandOff(s1, id, row, refused);
      r := if refused then Misconfigured else Made(id);
      assert old(runs) - {id} == old(runs);
      EndsOf(old(Contents()), Contents(), id, draft, rest, r);
    }

    /** `create_run`. */
    method CreateRun(id: RunId, req: Request, w: World, rest: Rest) returns (r: Response)
      requires id !in runs && id !in admitted && Full(rest)
      modifies this
      ensures r.Rejected? <==> CreateError(old(runs), req, w).Some? || JobError(OutcomeOf(rest.key, rest.attempts)).Some?
      ensures CreateError(old(runs), req, w).Some? ==>
        r == Rejected(CreateError(old(runs), req, w).value) && Contents() == old(Contents())
      ensures CreateError(old(runs), req, w).None? ==>
        Handled(Do(old(Contents()), Create(id, req, w)), id, rest, r)
      ensures CreateError(old(runs), req, w).None? ==> created == old(created) + JobsOf(rest.key, rest.attempts)
      ensures r.Rejected? ==> Contents() == old(Contents()).(created := created)
      ensures !CreateMay(old(runs), req, w) ==> r.Rejected? && Contents() == old(Contents())
      ensures CreateMay(old(runs), req, w) ==>
        Ends(old(Contents()), Contents(), id,
             Run(w.agent, req.plan, req.gpuType, req.gpuCount, req.isSandbox, req.preflight, req.sandboxRunId,
                 None, Queued, w.now, None, None), rest, r)
    {
      hide Ends, IsEvidence, Justifies;
      CreateAnswer(runs, req, w);
      if !req.isSandbox && IsScale(req.gpuType, req.gpuCount) {
        var bad := ParseError(req.preflight);
        if bad.Some? {
          return Rejected(bad.value);
        }
        var p := req.preflight.preflight;
        bad := LineageError(runs, p.sandboxRunId, w.agent, w.now);
        if bad.Some? {
          return Rejected(bad.value);
        }
        if req.sandboxRunId.Some? && req.sandboxRunId.value != "" && req.sandboxRunId.value != p.sandboxRunId {
          return Rejected(SandboxIdMismatch);
        }
      }
      if !w.withinBudget {
        return Rejected(BudgetExceeded);
      }
      admitted := admitted[id := Draft(CreatedRow(req, w), 0, false)];
      assert admitted - {id} == old(admitted);
      ghost var passed := Contents();
      r := Finish(id, CreatedRow(req, w), rest);
      EndsFrom(passed, old(Contents()), Contents(), id, CreatedRow(req, w), rest, r);
    }

    /** `promote_run`. */
    method PromoteRun(id: RunId, sandboxId: RunId, req: Promotion, w: World, rest: Rest) returns (r: Response)
      requires id !in runs && id !in admitted && Full(rest)
      modifies this
      ensures r.Rejected? <==> PromoteError(old(runs), sandboxId, req, w).Some? || JobError(OutcomeOf(rest.key, rest.attempts)).Some?
      ensures PromoteError(old(runs), sandboxId, req, w).Some? ==>
        r == Rejected(PromoteError(old(runs), sandboxId, req, w).value) && Contents() == old(Contents())
      ensures PromoteError(old(runs), sandboxId, req, w).None? ==>
        Handled(Do(old(Contents()), Promote(id, sandboxId, req, w)), id, rest, r)
      ensures PromoteError(old(runs), sandboxId, req, w).None? ==> created == old(created) + JobsOf(rest.key, rest.attempts)
      ensures r.Rejected? ==> Contents() == old(Contents()).(created := created)
      ensures !PromoteMay(old(runs), sandboxId, req, w) ==> r.Rejected? && Contents() == old(Contents())
      ensures PromoteMay(old(runs), sandboxId, req, w) ==>
        var plan := old(runs)[sandboxId].plan;
        Ends(old(Contents()), Contents(), id,
             Run(w.agent, plan, req.gpuType, req.gpuCount, false, Fields(Declared(plan, sandboxId, req.summary, 0.0)),
                 Some(sandboxId), None, Queued, w.now, None, None), rest, r)
    {
      hide Ends, IsEvidence, Justifies;
      PromoteAnswer(runs, sandboxId, req, w);
      if sandboxId !in runs {
        return Rejected(RunNotFound);
      }
      var sandbox := runs[sandboxId];
      if sandbox.owner != w.agent {
        return Rejected(NotOwner);
      }
      if !sandbox.isSandbox {
        return Rejected(NotASandbox);
      }
      if sandbox.status != Succeeded {
        return Rejected(SandboxNotSucceeded);
      }
      if !ValidSchema(BuiltPreflight(sandbox, sandboxId, req)) {
        return Rejected(PreflightBuildFailed);
      }
      var bad := LineageError(runs, sandboxId, w.agent, w.now);
      if bad.Some? {
        return Rejected(bad.value);
      }
      if !w.withinBudget {
        return Rejected(BudgetExceeded);
      }
      var row := PromotedRow(sandbox, sandboxId, req, w);
      admitted := admitted[id := Draft(row, 0, false)];
      assert admitted - {id} == old(admitted);
      ghost var passed := Contents();
      r := Finish(id, row, rest);
      EndsFrom(passed, old(Contents()), Contents(), id, row, rest, r);
    }
  }

  /** A refusal comes before any success. */
  predicate RefusedAtLast(answers: seq<Answer>) {
    exists k :: 0 <= k < |answers| && answers[k] == Refused && forall j :: 0 <= j < k ==> answers[j] == Failing
  }

  lemma LastAnswer(answers: seq<Answer>, refused: bool, attempts: nat)
    requires |answers| == MAX_ATTEMPTS && 1 <= attempts <= MAX_ATTEMPTS
    requires forall k :: 0 <= k < attempts - 1 ==> answers[k] == Failing
    requires attempts < MAX_ATTEMPTS ==> answers[attempts - 1] != Failing
    requires refused <==> answers[attempts - 1] == Refused
    ensures refused <==> RefusedAtLast(answers)
  {
    if RefusedAtLast(answers) {
      var k :| 0 <= k < |answers| && answers[k] == Refused && forall j :: 0 <= j < k ==> answers[j] == Failing;
      assert k == attempts - 1;
    }
  }

  // ---- What every interleaving keeps ----------------------------------------------------------

  /** A row the gate is for. */
  predicate Gated(r: Run) {
    NeedsGate(r.gpuType, r.gpuCount, r.isSandbox)
  }

  /** The row of an id, committed or still a draft. */
  function RowOf(s: State, id: RunId): Option<Run> {
    if id in s.runs then Some(s.runs[id])
    else if id in s.admitted then Some(s.admitted[id].row)
    else None
  }

  ghost predicate HasJob(s: State, j: JobId) {
    exists id :: RowOf(s, id).Some? && RowOf(s, id).value.job == Some(j)
  }

  /** Every created job is on a row, or on the row a handler is about to commit, or its
      cancellation was asked for. */
  ghost predicate JobsAccounted(s: State) {
    forall j :: j in s.created ==> j in s.cancelAsked || HasJob(s, j)
  }

  ghost predicate PreflightsValid(s: State) {
    forall id :: RowOf(s, id).Some? && Gated(RowOf(s, id).value) ==> IsEvidence(RowOf(s, id).value.preflight)
  }

  /** Drafts and rows have different ids, and only drafts past their job have one. */
  ghost predicate Tidy(s: State) {
    && (forall id :: id in s.admitted ==> id !in s.runs)
    && (forall id :: id in s.admitted && !s.admitted[id].made ==> s.admitted[id].row.job.None?)
  }

  lemma TidyStays(s: State, step: Step)
    requires Enabled(s, step) && Tidy(s)
    ensures Tidy(Do(s, step))
  {
    hide CreateError, PromoteError;
  }

  /** Another row or draft has the job, or its cancellation was asked for. */
  ghost predicate KnownElsewhere(s: State, id: RunId, j: JobId) {
    j in s.cancelAsked || exists other :: other != id && RowOf(s, other).Some? && RowOf(s, other).value.job == Some(j)
  }

  /** The handler dies between its job and its row, or a POST makes a job that its reply
      does not name, and nothing else knows that job. */
  ghost predicate Orphans(s: State, step: Step) {
    match step
    case Lost(id) =>
      && id in s.admitted && s.admitted[id].row.job.Some?
      && s.admitted[id].row.job.value in s.created && !KnownElsewhere(s, id, s.admitted[id].row.job.value)
    case Posted(id, Attempt(Some(j), reply)) => reply != Object(Some(j)) && !KnownElsewhere(s, id, j)
    case _ => false
  }

  lemma OtherRowsStay(s: State, step: Step, id: RunId)
    requires Enabled(s, step) && Tidy(s) && id != step.id
    ensures RowOf(Do(s, step), id) == RowOf(s, id)
  {
    hide CreateError, PromoteError;
  }

  lemma JobStays(s: State, step: Step, j: JobId)
    requires Enabled(s, step) && Tidy(s) && !Orphans(s, step)
    requires j in s.created && (j in s.cancelAsked || HasJob(s, j))
    ensures var t := Do(s, step); j in t.cancelAsked || HasJob(t, j)
  {
    hide CreateError, PromoteError;
    var t := Do(s, step);
    if j !in s.cancelAsked {
      var id :| RowOf(s, id).Some? && RowOf(s, id).value.job == Some(j);
      if id != step.id {
        OtherRowsStay(s, step, id);
        assert RowOf(t, id).value.job == Some(j);
      } else if step.Lost? {
        assert KnownElsewhere(s, id, j);
        var other :| other != id && RowOf(s, other).Some? && RowOf(s, other).value.job == Some(j);
        OtherRowsStay(s, step, other);
        assert RowOf(t, other).value.job == Some(j);
      } else if !step.RolledBack? {
        assert RowOf(t, id).Some? && RowOf(t, id).value.job == Some(j);
      }
    }
  }

  /** A step keeps every job accounted for if and only if it is neither the death of a
      handler that alone knows its job, nor a POST that makes a job its reply does not name. */
  lemma JobsStayIff(s: State, step: Step)
    requires Enabled(s, step) && Tidy(s) && JobsAccounted(s)
    ensures JobsAccounted(Do(s, step)) <==> !Orphans(s, step)
  {
    hide CreateError, PromoteError;
    var t := Do(s, step);
    if Orphans(s, step) {
      var j := if step.Lost? then s.admitted[step.id].row.job.value else step.attempt.made.value;
      forall id ensures RowOf(t, id).Some? ==> RowOf(t, id).value.job != Some(j) {
        if id != step.id {
          OtherRowsStay(s, step, id);
          assert !KnownElsewhere(s, step.id, j);
        }
      }
      assert !HasJob(t, j) && j in t.created;
    } else {
      forall j | j in t.created ensures j in t.cancelAsked || HasJob(t, j) {
        if j in s.created {
          JobStays(s, step, j);
        } else {
          NewJob(s, step, j);
        }
      }
    }
  }

  lemma NewJob(s: State, step: Step, j: JobId)
    requires Enabled(s, step) && Tidy(s) && !Orphans(s, step) && j in Do(s, step).created && j !in s.created
    ensures j in Do(s, step).cancelAsked || HasJob(Do(s, step), j)
  {
    hide CreateError, PromoteError;
    var t := Do(s, step);
    assert step.Posted? && step.attempt.made == Some(j);
    if step.attempt.reply == Object(Some(j)) {
      assert RowOf(t, step.id).Some? && RowOf(t, step.id).value.job == Some(j);
    } else {
      assert KnownElsewhere(s, step.id, j);
      if j !in s.cancelAsked {
        var other :| other != step.id && RowOf(s, other).Some? && RowOf(s, other).value.job == Some(j);
        OtherRowsStay(s, step, other);
        assert RowOf(t, other).value.job == Some(j);
      }
    }
  }

  lemma PreflightsStay(s: State, step: Step)
    requires Enabled(s, step) && Tidy(s) && PreflightsValid(s)
    ensures PreflightsValid(Do(s, step))
  {
    hide ValidSchema, LineageError, IsScale;
    var t := Do(s, step);
    forall id | RowOf(t, id).Some? && Gated(RowOf(t, id).value)
      ensures IsEvidence(RowOf(t, id).value.preflight)
    {
      ParsesIff(RowOf(t, id).value.preflight);
      ScaleIff(RowOf(t, id).value.gpuType, RowOf(t, id).value.gpuCount);
      if id != step.id {
        OtherRowsStay(s, step, id);
      } else {
        PromotionIsValid(s, step);
        assert RowOf(s, id).Some? ==> Gated(RowOf(s, id).value);
      }
    }
  }

  lemma PromotionIsValid(s: State, step: Step)
    ensures step.Promote? && PromoteError(s.runs, step.sandbox, step.promotion, step.world).None? ==>
      ValidSchema(BuiltPreflight(s.runs[step.sandbox], step.sandbox, step.promotion))
  {
    hide ValidSchema, LineageError;
  }

  // ---- Whole executions --------------------------------------------------------------------------

  ghost predicate IsRun(trace: seq<State>, steps: seq<Step>) {
    && |trace| == |steps| + 1 && trace[0] == START
    && forall i :: 0 <= i < |steps| ==> Enabled(trace[i], steps[i]) && trace[i + 1] == Do(trace[i], steps[i])
  }

  lemma {:induction false} RunKeeps(trace: seq<State>, steps: seq<Step>, n: nat)
    requires IsRun(trace, steps) && n < |trace|
    ensures Tidy(trace[n]) && PreflightsValid(trace[n])
    ensures (forall i :: 0 <= i < n ==> !Orphans(trace[i], steps[i])) ==> JobsAccounted(trace[n])
  {
    hide Do, JobsAccounted, PreflightsValid, Enabled, Tidy, Orphans;
    if n == 0 {
      StartKeeps();
    } else {
      RunKeeps(trace, steps, n - 1);
      assert trace[n] == Do(trace[n - 1], steps[n - 1]);
      TidyStays(trace[n - 1], steps[n - 1]);
      PreflightsStay(trace[n - 1], steps[n - 1]);
      if forall i :: 0 <= i < n ==> !Orphans(trace[i], steps[i]) {
        JobsStayIff(trace[n - 1], steps[n - 1]);
      }
    }
  }

  lemma StartKeeps()
    ensures Tidy(START) && JobsAccounted(START) && PreflightsValid(START)
  {
  }

  /** When no handler is between its job and its row, every job is on a committed row or
      its cancellation was asked for. */
  lemma JobsAtRest(trace: seq<State>, steps: seq<Step>, n: nat, j: JobId)
    requires IsRun(trace, steps) && n < |trace| && forall i :: 0 <= i < n ==> !Orphans(trace[i], steps[i])
    requires (forall id :: id in trace[n].admitted ==> !trace[n].admitted[id].made) && j in trace[n].created
    ensures j in trace[n].cancelAsked || exists id :: id in trace[n].runs && trace[n].runs[id].job == Some(j)
  {
    hide IsRun, Orphans;
    RunKeeps(trace, steps, n);
    var s := trace[n];
    if j !in s.cancelAsked {
      assert HasJob(s, j);
      var id :| RowOf(s, id).Some? && RowOf(s, id).value.job == Some(j);
      assert id in s.runs;
    }
  }

  /** The row is the request's. */
  ghost predicate AskedFor(step: Step, row: Run)
    requires step.Create? || step.Promote?
  {
    && row.owner == step.world.agent
    && match step
       case Create(_, req, _) =>
         row.isSandbox == req.isSandbox && row.gpuType == req.gpuType && row.gpuCount == req.gpuCount
         && row.preflight == req.preflight && row.plan == req.plan && row.parent == req.sandboxRunId
       case Promote(_, sandbox, req, _) =>
         !row.isSandbox && row.gpuType == req.gpuType && row.gpuCount == req.gpuCount
         && row.preflight.Fields? && row.preflight.preflight.sandboxRunId == sandbox
         && row.preflight.preflight.plan == row.plan && row.parent == Some(sandbox)
  }

  /** The checks that let a row in, and what justified it then. */
  ghost predicate AcceptedBy(before: State, step: Step, id: RunId, row: Run) {
    && (step.Create? || step.Promote?) && step.id == id && RowOf(before, id).None?
    && AskedFor(step, row)
    && IsEvidence(row.preflight)
    && Justifies(before.runs, row.preflight.preflight.sandboxRunId, row.owner, step.world.now)
  }

  /** What no later step changes of a row. */
  predicate SameRequest(a: Run, b: Run) {
    a.owner == b.owner && a.isSandbox == b.isSandbox && a.gpuType == b.gpuType && a.gpuCount == b.gpuCount
    && a.preflight == b.preflight && a.plan == b.plan && a.parent == b.parent
  }

  ghost predicate SameRow(s: State, t: State, id: RunId) {
    RowOf(s, id).Some? && RowOf(t, id).Some? && SameRequest(RowOf(s, id).value, RowOf(t, id).value)
  }

  lemma RowOfStep(s: State, step: Step, id: RunId)
    requires Enabled(s, step) && Tidy(s) && RowOf(Do(s, step), id).Some?
    ensures || SameRow(s, Do(s, step), id)
            || ((step.Create? || step.Promote?) && step.id == id && AskedFor(step, RowOf(Do(s, step), id).value))
  {
    hide CreateError, PromoteError, IsScale;
    if id != step.id {
      OtherRowsStay(s, step, id);
    }
  }

  lemma StepOfRow(s: State, step: Step, id: RunId)
    requires Enabled(s, step) && Tidy(s)
    requires RowOf(Do(s, step), id).Some? && Gated(RowOf(Do(s, step), id).value)
    ensures SameRow(s, Do(s, step), id) || AcceptedBy(s, step, id, RowOf(Do(s, step), id).value)
  {
    hide ValidSchema, LineageError, IsScale, Justifies, AskedFor, SameRequest, BudgetError;
    RowOfStep(s, step, id);
    ParsesIff(RowOf(Do(s, step), id).value.preflight);
    ScaleIff(RowOf(Do(s, step), id).value.gpuType, RowOf(Do(s, step), id).value.gpuCount);
    match step
    case Create(_, req, w) =>
      if CreateError(s.runs, req, w).None? && req.preflight.Fields? {
        LineageAcceptsIff(s.runs, req.preflight.preflight.sandboxRunId, w.agent, w.now);
      }
    case Promote(_, sandbox, req, w) =>
      PromotionIsValid(s, step);
      LineageAcceptsIff(s.runs, sandbox, w.agent, w.now);
    case _ =>
  }

  /** Every scale run that is not a sandbox was accepted at a moment when the sandbox run
      its valid preflight names existed, had succeeded or was running, belonged to the
      same agent and was at most a day old. */
  lemma {:induction false} ScaleRunsWereJustified(trace: seq<State>, steps: seq<Step>, n: nat, id: RunId)
    requires IsRun(trace, steps) && n < |trace|
    requires RowOf(trace[n], id).Some? && Gated(RowOf(trace[n], id).value)
    ensures exists m :: 0 <= m < n && AcceptedBy(trace[m], steps[m], id, RowOf(trace[n], id).value)
  {
    hide Do, Gated, AcceptedBy, Enabled, RowOf, SameRequest, Tidy;
    if n == 0 {
      NothingAtStart(id);
    } else {
      RunKeeps(trace, steps, n - 1);
      assert trace[n] == Do(trace[n - 1], steps[n - 1]);
      StepOfRow(trace[n - 1], steps[n - 1], id);
      if !AcceptedBy(trace[n - 1], steps[n - 1], id, RowOf(trace[n], id).value) {
        var a, b := RowOf(trace[n - 1], id).value, RowOf(trace[n], id).value;
        GatedBefore(a, b);
        ScaleRunsWereJustified(trace, steps, n - 1, id);
        var m :| 0 <= m < n - 1 && AcceptedBy(trace[m], steps[m], id, a);
        AcceptedToo(trace[m], steps[m], id, a, b);
      }
    }
  }

  lemma NothingAtStart(id: RunId)
    ensures RowOf(START, id).None?
  {
  }

  /** The request step `m` asked for. */
  ghost predicate RequestedAt(steps: seq<Step>, m: nat, id: RunId, row: Run) {
    m < |steps| && (steps[m].Create? || steps[m].Promote?) && steps[m].id == id && AskedFor(steps[m], row)
  }

  /** Gated or not, a row is what its request asked for, and stays it. */
  lemma {:induction false} RowsAreAsRequested(trace: seq<State>, steps: seq<Step>, n: nat, id: RunId)
    requires IsRun(trace, steps) && n < |trace| && RowOf(trace[n], id).Some?
    ensures exists m: nat :: m < n && RequestedAt(steps, m, id, RowOf(trace[n], id).value)
  {
    hide Do, AskedFor, Enabled, RowOf, SameRequest, Tidy;
    if n == 0 {
      NothingAtStart(id);
    } else {
      RunKeeps(trace, steps, n - 1);
      assert trace[n] == Do(trace[n - 1], steps[n - 1]);
      RowOfStep(trace[n - 1], steps[n - 1], id);
      if SameRow(trace[n - 1], trace[n], id) {
        RowsAreAsRequested(trace, steps, n - 1, id);
        var m: nat :| m < n - 1 && RequestedAt(steps, m, id, RowOf(trace[n - 1], id).value);
        AskedForToo(steps[m], RowOf(trace[n - 1], id).value, RowOf(trace[n], id).value);
        assert RequestedAt(steps, m, id, RowOf(trace[n], id).value);
      } else {
        assert RequestedAt(steps, n - 1, id, RowOf(trace[n], id).value);
      }
    }
  }

  lemma AskedForToo(step: Step, a: Run, b: Run)
    requires SameRequest(a, b) && (step.Create? || step.Promote?) && AskedFor(step, a)
    ensures AskedFor(step, b)
  {
  }

  lemma GatedBefore(a: Run, b: Run)
    requires SameRequest(a, b)
    ensures Gated(a) <==> Gated(b)
  {
  }

  lemma AcceptedToo(s: State, step: Step, id: RunId, a: Run, b: Run)
    requires SameRequest(a, b) && AcceptedBy(s, step, id, a)
    ensures AcceptedBy(s, step, id, b)
  {
  }

  ghost predicate JobMadeAt(steps: seq<Step>, m: nat, id: RunId, job: Option<JobId>) {
    m < |steps| && steps[m].Posted? && steps[m].id == id && steps[m].attempt.reply == Object(job)
  }

  ghost predicate PastJob(s: State, id: RunId) {
    id in s.runs || (id in s.admitted && s.admitted[id].made)
  }

  lemma JobOfStep(s: State, step: Step, id: RunId)
    requires Enabled(s, step) && Tidy(s) && PastJob(Do(s, step), id)
    ensures || (PastJob(s, id) && RowOf(s, id).value.job == RowOf(Do(s, step), id).value.job)
            || (step.Posted? && step.id == id && step.attempt.reply == Object(RowOf(Do(s, step), id).value.job))
  {
    hide CreateError, PromoteError;
  }

  /** The job on a committed row is the one a reply of the training service named
      for it. */
  lemma {:induction false} RowsHaveTheirJob(trace: seq<State>, steps: seq<Step>, n: nat, id: RunId)
    requires IsRun(trace, steps) && n < |trace| && PastJob(trace[n], id)
    ensures exists m: nat :: m < n && JobMadeAt(steps, m, id, RowOf(trace[n], id).value.job)
  {
    hide Do, Enabled, Tidy;
    if n > 0 {
      RunKeeps(trace, steps, n - 1);
      assert trace[n] == Do(trace[n - 1], steps[n - 1]);
      JobOfStep(trace[n - 1], steps[n - 1], id);
      if !JobMadeAt(steps, n - 1, id, RowOf(trace[n], id).value.job) {
        RowsHaveTheirJob(trace, steps, n - 1, id);
      }
    }
  }

  // ---- Is the sandbox still there? -------------------------------------------------------------------

  function Cited(r: Run): Option<RunId> {
    if Gated(r) && r.preflight.Fields? then Some(r.preflight.preflight.sandboxRunId) else None
  }

  /** The sandbox a gated row names exists, is a sandbox and has the same owner. */
  ghost predicate Backed(s: State, r: Run) {
    Gated(r) ==>
      && r.preflight.Fields? && r.preflight.preflight.sandboxRunId in s.runs
      && s.runs[r.preflight.preflight.sandboxRunId].isSandbox
      && s.runs[r.preflight.preflight.sandboxRunId].owner == r.owner
  }

  /** Backed, and by a row whose own hand-off is over. */
  ghost predicate Settled(s: State, r: Run) {
    Backed(s, r) && (Cited(r).Some? ==> Cited(r).value !in s.pending)
  }

  /** All gated rows and drafts are. */
  ghost predicate SafelyBacked(s: State) {
    forall id :: RowOf(s, id).Some? ==> Settled(s, RowOf(s, id).value)
  }

  /** The step does not accept a row that cites a sandbox whose hand-off is under way. */
  ghost predicate CitesSettled(s: State, step: Step)
    requires Enabled(s, step)
  {
    (step.Create? || step.Promote?) && RowOf(Do(s, step), step.id).Some? ==>
      var c := Cited(RowOf(Do(s, step), step.id).value);
      c.Some? ==> c.value !in s.pending
  }

  /** Whatever a step does, a committed sandbox row stays one of the same owner unless its
      own hand-off is refused. */
  lemma SandboxStays(s: State, step: Step, box: RunId)
    requires Enabled(s, step) && box in s.runs && box !in s.pending
    ensures var t := Do(s, step);
            && box in t.runs && box !in t.pending
            && t.runs[box].isSandbox == s.runs[box].isSandbox && t.runs[box].owner == s.runs[box].owner
  {
    hide CreateError, PromoteError;
  }

  lemma SettledStays(s: State, step: Step, a: Run, b: Run)
    requires Enabled(s, step) && Settled(s, a) && SameRequest(a, b)
    ensures Settled(Do(s, step), b)
  {
    hide Do, IsScale;
    if Cited(a).Some? {
      SandboxStays(s, step, Cited(a).value);
    }
  }

  lemma BackedStay(s: State, step: Step)
    requires Enabled(s, step) && Tidy(s) && SafelyBacked(s) && CitesSettled(s, step)
    ensures SafelyBacked(Do(s, step))
  {
    hide Do, AcceptedBy, Settled, Gated, Tidy, RowOf;
    var t := Do(s, step);
    forall id | RowOf(t, id).Some? ensures Settled(t, RowOf(t, id).value) {
      var row := RowOf(t, id).value;
      if Gated(row) {
        StepOfRow(s, step, id);
        if SameRow(s, t, id) {
          SettledStays(s, step, RowOf(s, id).value, row);
        } else {
          AcceptedIsSettled(s, step, id, row);
          SettledStays(s, step, row, row);
        }
      } else {
        UngatedIsSettled(t, row);
      }
    }
  }

  lemma UngatedIsSettled(s: State, row: Run)
    requires !Gated(row)
    ensures Settled(s, row)
  {
  }

  lemma AcceptedIsSettled(s: State, step: Step, id: RunId, row: Run)
    requires Enabled(s, step) && AcceptedBy(s, step, id, row) && CitesSettled(s, step)
    requires RowOf(Do(s, step), id) == Some(row)
    ensures Settled(s, row)
  {
    hide Do, IsScale, ValidSchema;
  }

  /** If requests cite only sandboxes whose hand-off is over (as they do when requests
      are handled one at a time), the cited sandbox always exists. */
  lemma {:induction false} SandboxesStay(trace: seq<State>, steps: seq<Step>, n: nat)
    requires IsRun(trace, steps) && n < |trace|
    requires forall i :: 0 <= i < n ==> CitesSettled(trace[i], steps[i])
    ensures SafelyBacked(trace[n])
  {
    hide Do, SafelyBacked, CitesSettled, Enabled, Tidy;
    if n == 0 {
      StartBacked();
    } else {
      SandboxesStay(trace, steps, n - 1);
      RunKeeps(trace, steps, n - 1);
      assert trace[n] == Do(trace[n - 1], steps[n - 1]);
      BackedStay(trace[n - 1], steps[n - 1]);
    }
  }

  lemma StartBacked()
    ensures SafelyBacked(START)
  {
  }

  /** The rollback of a sandbox leaves a gated row without it exactly when the row cites
      that sandbox while its hand-off is under way. */
  lemma RollbackDanglesIff(s: State, row: Run, sandbox: RunId)
    requires Gated(row) && Backed(s, row) && sandbox in s.runs
    ensures (Enabled(s, RolledBack(sandbox)) && !Backed(Do(s, RolledBack(sandbox)), row))
      <==> Cited(row) == Some(sandbox) && sandbox in s.pending
  {
    hide IsScale;
  }

  /** Requests handled one at a time cite settled sandboxes only. */
  lemma SerialCitesSettled(s: State, step: Step)
    requires Enabled(s, step) && (step.Create? || step.Promote? ==> s.pending == {})
    ensures CitesSettled(s, step)
  {
  }

  // ---- Two requests at once can leave a scale run without its sandbox ------------------------------

  const PLAN := Plan("m", "sft", [Dataset("d", 1.0, "hf")], [])
  const EVIDENCE := Fields(Declared(PLAN, "box", "ok", 0.0))
  const SANDBOX_REQUEST := Request(PLAN, "H100", 1, true, Absent, None)
  const SCALE_REQUEST := Request(PLAN, "H100", 8, false, EVIDENCE, None)

  function Overlap(): seq<Step> {
    [Create("box", SANDBOX_REQUEST, World("a", 0.0, true)),
     Posted("box", Attempt(Some("j1"), Object(Some("j1")))),
     Commits("box", 0.0),
     Update("box", Running, None, None),
     Create("big", SCALE_REQUEST, World("a", 1.0, true)),
     Posted("big", Attempt(Some("j2"), Object(Some("j2")))),
     Commits("big", 1.0),
     RolledBack("box")]
  }

  lemma ScaleNeedsGate()
    ensures IsScale("H100", 8) && ParseError(EVIDENCE).None?
  {
    assert Lower("H100")[0] == 'h';
  }

  /** The sandbox's row, committed and running while its hand-off is still under way. */
  lemma BoxIsMade() returns (trace: seq<State>)
    ensures |trace| == 5 && trace[0] == START
    ensures forall i :: 0 <= i < 4 ==> Enabled(trace[i], Overlap()[i]) && trace[i + 1] == Do(trace[i], Overlap()[i])
    ensures var row := CreatedRow(SANDBOX_REQUEST, World("a", 0.0, true));
            trace[4] == State(map["box" := row.(job := Some("j1"), status := Running)], {"j1"}, {}, map[], {"box"})
  {
    var steps := Overlap();
    var row := CreatedRow(SANDBOX_REQUEST, World("a", 0.0, true));
    var s1 := Do(START, steps[0]);
    assert s1.admitted == map["box" := Draft(row, 0, false)];
    var s2 := Do(s1, steps[1]);
    assert s2.admitted == map["box" := Draft(row.(job := Some("j1")), 1, true)] && s2.created == {"j1"};
    var s3 := Do(s2, steps[2]);
    assert s3.runs == map["box" := row.(job := Some("j1"))] && s3.admitted == map[];
    var s4 := Do(s3, steps[3]);
    trace := [START, s1, s2, s3, s4];
  }

  lemma BoxIsAccepted(runs: map<RunId, Run>)
    requires "box" in runs
    requires runs["box"] == CreatedRow(SANDBOX_REQUEST, World("a", 0.0, true)).(job := Some("j1"), status := Running)
    ensures CreateError(runs, SCALE_REQUEST, World("a", 1.0, true)).None?
  {
    ScaleNeedsGate();
    hide IsScale, ValidSchema;
    assert AgeAnchor(runs["box"]) == 0.0;
    assert LineageError(runs, "box", "a", 1.0).None?;
  }

  /** The scale run is accepted on a sandbox whose own hand-off is then refused. */
  lemma DanglingIsReachable() returns (trace: seq<State>)
    ensures IsRun(trace, Overlap())
    ensures var last := trace[|trace| - 1];
            "big" in last.runs && Gated(last.runs["big"]) && !Backed(last, last.runs["big"])
  {
    ScaleNeedsGate();
    hide IsScale, ValidSchema, CreateError;
    var steps := Overlap();
    var start := BoxIsMade();
    var s4 := start[4];
    BoxIsAccepted(s4.runs);
    var s5 := Do(s4, steps[4]);
    var s6 := Do(s5, steps[5]);
    var s7 := Do(s6, steps[6]);
    var s8 := Do(s7, steps[7]);
    assert "box" !in s8.runs && "big" in s8.runs;
    trace := start + [s5, s6, s7, s8];
  }

  /** The first handler dies after its job was made. */
  function Death(): seq<Step> {
    [Overlap()[0], Overlap()[1], Lost("box")]
  }

  lemma OrphanIsReachable() returns (trace: seq<State>)
    ensures IsRun(trace, Death())
    ensures var last := trace[|trace| - 1];
            last.created == {"j1"} && last.cancelAsked == {} && last.runs == map[] && last.admitted == map[]
    ensures !JobsAccounted(trace[|trace| - 1])
  {
    var steps := Death();
    var row := CreatedRow(SANDBOX_REQUEST, World("a", 0.0, true));
    var s1 := Do(START, steps[0]);
    assert s1.admitted == map["box" := Draft(row, 0, false)];
    var s2 := Do(s1, steps[1]);
    assert s2.admitted == map["box" := Draft(row.(job := Some("j1")), 1, true)] && s2.created == {"j1"};
    var s3 := Do(s2, steps[2]);
    assert s3.admitted == map[];
    assert "j1" in s3.created && !HasJob(s3, "j1");
    trace := [START, s1, s2, s3];
  }

  /** The reply to the first POST is lost, the second is answered; the handler commits its
      row and hands it off. */
  function Retried(): seq<Step> {
    [Overlap()[0],
     Posted("box", Attempt(Some("j0"), NoReply)),
     Posted("box", Attempt(Some("j1"), Object(Some("j1")))),
     Commits("box", 0.0),
     HandedOff("box")]
  }

  lemma RetryOrphanIsReachable() returns (trace: seq<State>)
    ensures IsRun(trace, Retried())
    ensures var last := trace[|trace| - 1];
            && last.created == {"j0", "j1"} && last.cancelAsked == {} && last.admitted == map[]
            && last.runs.Keys == {"box"} && last.runs["box"].job == Some("j1")
    ensures !JobsAccounted(trace[|trace| - 1])
  {
    var steps := Retried();
    var row := CreatedRow(SANDBOX_REQUEST, World("a", 0.0, true));
    var s1 := Do(START, steps[0]);
    assert s1.admitted == map["box" := Draft(row, 0, false)];
    var s2 := Do(s1, steps[1]);
    assert s2.admitted == map["box" := Draft(row, 1, false)] && s2.created == {"j0"};
    var s3 := Do(s2, steps[2]);
    assert s3.admitted == map["box" := Draft(row.(job := Some("j1")), 2, true)] && s3.created == {"j0", "j1"};
    var s4 := Do(s3, steps[3]);
    assert s4.runs == map["box" := row.(job := Some("j1"))] && s4.admitted == map[];
    var s5 := Do(s4, steps[4]);
    assert "j0" in s5.created && !HasJob(s5, "j0");
    trace := [START, s1, s2, s3, s4, s5];
  }

  /** Three POSTs whose replies are all lost: the request is rejected, and three jobs made. */
  lemma RejectedCanMakeJobs(a: JobId, b: JobId, c: JobId)
    ensures var attempts := [Attempt(Some(a), NoReply), Attempt(Some(b), NoReply), Attempt(Some(c), NoReply)];
            && JobError(OutcomeOf(HasKey, attempts)) == Some(ServerError)
            && JobsOf(HasKey, attempts) == {a, b, c}
  {
    var attempts := [Attempt(Some(a), NoReply), Attempt(Some(b), NoReply), Attempt(Some(c), NoReply)];
    LostPost(c, []);
    LostPost(b, [attempts[2]]);
    LostPost(a, [attempts[1], attempts[2]]);
    assert [attempts[2]] + [] == [attempts[2]];
    assert [attempts[0]] + [attempts[1], attempts[2]] == attempts;
    assert [attempts[1]] + [attempts[2]] == [attempts[1], attempts[2]];
  }

  lemma LostPost(j: JobId, rest: seq<Attempt>)
    ensures var attempts := [Attempt(Some(j), NoReply)] + rest;
            OutcomeOfPosts(attempts) == OutcomeOfPosts(rest) && JobsOfPosts(attempts) == {j} + JobsOfPosts(rest)
  {
    assert ([Attempt(Some(j), NoReply)] + rest)[1..] == rest;
  }
}
