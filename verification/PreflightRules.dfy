/** The gate before a production-scale run: what a preflight must hold and which
    sandbox run may justify it. */
module PreflightRules {
  import opened Text
  import opened RunStatus

  type Agent = string
  type RunId = string
  type JobId = string
  type Time = real

  const SANDBOX_MAX_AGE := 86400.0
  const SANDBOX_MAX_GPU_COUNT := 1

  datatype Dataset = Dataset(name: string, weight: real, source: string)
  datatype Citation = Citation(source: string, id: string, title: string)

  datatype Plan = Plan(model: string, recipe: string, datasets: seq<Dataset>, citations: seq<Citation>)

  datatype Preflight = Declared(plan: Plan, sandboxRunId: RunId, summary: string, cost: real)

  /** The preflight member of a request: absent or empty, not of the schema's shape, or
      fields whose values are still to be checked. */
  datatype Raw = Absent | Malformed | Fields(preflight: Preflight)

  datatype Run = Run(owner: Agent, plan: Plan, gpuType: string, gpuCount: int, isSandbox: bool,
                     preflight: Raw, parent: Option<RunId>, job: Option<JobId>, status: Status,
                     created: Time, started: Option<Time>, finished: Option<Time>)

  datatype Refusal =
    | PreflightMissing | PreflightInvalid
    | SandboxNotFound | SandboxOwnerMismatch | SandboxNotSandbox | SandboxNotCompleted | SandboxStale
    | SandboxIdMismatch
    | RunNotFound | NotOwner | NotASandbox | SandboxNotSucceeded | PreflightBuildFailed
    | BudgetExceeded | KeyMissing | TinkerUnavailable | ServerError

  predicate IsScale(gpuType: string, gpuCount: int) {
    Lower(gpuType) != "cpu" && gpuCount > SANDBOX_MAX_GPU_COUNT
  }

  /** The field constraints of the schema. */
  predicate ValidSchema(p: Preflight) {
    && p.plan.model != "" && p.plan.recipe != "" && p.plan.datasets != []
    && (forall d :: d in p.plan.datasets ==> d.name != "" && d.weight > 0.0 && d.source != "")
    && (forall c :: c in p.plan.citations ==> c.source != "" && c.id != "" && c.title != "")
    && p.sandboxRunId != "" && p.summary != "" && p.cost >= 0.0
  }

  /** `parse_preflight`. */
  function ParseError(raw: Raw): Option<Refusal> {
    match raw
    case Absent => Some(PreflightMissing)
    case Malformed => Some(PreflightInvalid)
    case Fields(p) => if ValidSchema(p) then None else Some(PreflightInvalid)
  }

  function AgeAnchor(r: Run): Time {
    if r.finished.Some? then r.finished.value
    else if r.started.Some? then r.started.value
    else r.created
  }

  /** `validate_sandbox_lineage`, in the order of its checks. */
  function LineageError(runs: map<RunId, Run>, id: RunId, agent: Agent, now: Time): Option<Refusal> {
    if id !in runs then Some(SandboxNotFound)
    else
      var row := runs[id];
      if row.owner != agent then Some(SandboxOwnerMismatch)
      else if !row.isSandbox then Some(SandboxNotSandbox)
      else if row.status != Succeeded && row.status != Running then Some(SandboxNotCompleted)
      else if now - AgeAnchor(row) > SANDBOX_MAX_AGE then Some(SandboxStale)
      else None
  }

  /** A sandbox run that justifies a scale run of this agent now. */
  predicate Justifies(runs: map<RunId, Run>, id: RunId, agent: Agent, now: Time) {
    && id in runs
    && var row := runs[id];
       && row.owner == agent && row.isSandbox
       && (row.status == Succeeded || row.status == Running)
       && now - (match row.finished case Some(t) => t
                 case None => match row.started case Some(t) => t case None => row.created) <= 86400.0
  }

  /** More than one GPU of a kind that is not the CPU, outside a sandbox. */
  predicate NeedsGate(gpuType: string, gpuCount: int, isSandbox: bool) {
    !isSandbox && gpuCount > 1 && Lower(gpuType) != "cpu"
  }

  lemma ScaleIff(gpuType: string, gpuCount: int)
    ensures IsScale(gpuType, gpuCount) <==> NeedsGate(gpuType, gpuCount, false)
  {
  }

  /** A preflight as the schema wants it. */
  ghost predicate IsEvidence(raw: Raw) {
    && raw.Fields?
    && var p := raw.preflight;
       && p.plan.model != "" && p.plan.recipe != "" && p.sandboxRunId != "" && p.summary != "" && p.cost >= 0.0
       && |p.plan.datasets| >= 1
       && (forall i :: 0 <= i < |p.plan.datasets| ==>
             var d := p.plan.datasets[i]; d.name != "" && d.weight > 0.0 && d.source != "")
       && (forall i :: 0 <= i < |p.plan.citations| ==>
             var c := p.plan.citations[i]; c.source != "" && c.id != "" && c.title != "")
  }

  /** A preflight parses if and only if it is evidence; a missing one is told apart. */
  lemma ParsesIff(raw: Raw)
    ensures ParseError(raw).None? <==> IsEvidence(raw)
    ensures ParseError(raw) == Some(PreflightMissing) <==> raw.Absent?
    ensures ParseError(raw).Some? && !raw.Absent? ==> ParseError(raw) == Some(PreflightInvalid)
  {
    if raw.Fields? {
      var p := raw.preflight;
      assert forall d :: d in p.plan.datasets <==> exists i :: 0 <= i < |p.plan.datasets| && p.plan.datasets[i] == d;
      assert forall c :: c in p.plan.citations <==> exists i :: 0 <= i < |p.plan.citations| && p.plan.citations[i] == c;
    }
  }

  /** The refusal names the first thing that is wrong with the sandbox. */
  lemma LineageReasons(runs: map<RunId, Run>, id: RunId, agent: Agent, now: Time)
    ensures var r := LineageError(runs, id, agent, now);
            && (id !in runs <==> r == Some(SandboxNotFound))
            && (id in runs && runs[id].owner != agent <==> r == Some(SandboxOwnerMismatch))
            && (id in runs && runs[id].owner == agent && !runs[id].isSandbox <==> r == Some(SandboxNotSandbox))
            && (r == Some(SandboxNotCompleted) <==>
                  && id in runs && runs[id].owner == agent && runs[id].isSandbox
                  && runs[id].status != Succeeded && runs[id].status != Running)
            && (r == Some(SandboxStale) <==>
                  && id in runs && runs[id].owner == agent && runs[id].isSandbox
                  && (runs[id].status == Succeeded || runs[id].status == Running)
                  && !Justifies(runs, id, agent, now))
  {
  }

  lemma LineageAcceptsIff(runs: map<RunId, Run>, id: RunId, agent: Agent, now: Time)
    ensures LineageError(runs, id, agent, now).None? <==> Justifies(runs, id, agent, now)
  {
  }
}
