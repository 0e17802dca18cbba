/** Is the table of per-agent semaphores ever larger than its bound? Exactly when the two
    caps allow it. */
module SemaphoreBound {
  import opened Semaphores
  import Sets

  ghost predicate AlwaysBounded(cap: nat, globalCap: nat) {
    forall trace: seq<State>, i: nat :: IsExecution(trace, cap, globalCap) && i < |trace| ==> |trace[i].agents| <= 256
  }

  // ---- Small caps: the bound is kept -----------------------------------------------------

  ghost predicate AllIdle(s: State, cap: nat) {
    && s.agents.Keys == s.lastUsed.Keys
    && forall a :: a in s.agents ==> Idle(s, cap, a)
  }

  /** When no entry is in use, eviction ends below the bound and one more entry fits. */
  lemma IdleTableStaysBounded(s: State, e: State, cap: nat, now: Time, agent: Agent)
    requires AllIdle(s, cap) && Evicted(s, e, cap, now)
    ensures |Looked(e, agent, now, cap).agents| <= MAX_AGENTS
  {
    assert |e.agents| < MAX_AGENTS;
    var l := Looked(e, agent, now, cap);
    if agent !in e.agents {
      assert l.agents.Keys == e.agents.Keys + {agent};
      assert |l.agents.Keys| == |e.agents.Keys| + 1;
    }
    assert |l.agents| == |l.agents.Keys| && |e.agents| == |e.agents.Keys|;
  }

  lemma AcquireStaysBounded(s: State, c: ConnId, agent: Agent, now: Time, s1: State, cap: nat)
    requires AllIdle(s, cap) && Next(s, Acquire(c, agent, now), s1, cap)
    ensures |s1.agents| <= MAX_AGENTS
  {
    hide Evicted, AllIdle;
    var e :| Begins(s, e, s1, c, agent, now, cap);
    IdleTableStaysBounded(s, e, cap, now, agent);
  }

  lemma OthersStayBounded(s: State, step: Step, s1: State, cap: nat)
    requires Next(s, step, s1, cap) && !step.Acquire?
    ensures s1.agents == s.agents
  {
  }

  /** With nobody connected every entry is idle. */
  lemma NobodyMeansIdle(s: State, cap: nat, globalCap: nat)
    requires Inv(s, cap, globalCap) && s.conns == map[]
    ensures AllIdle(s, cap)
  {
    forall a | a in s.agents ensures Idle(s, cap, a) {
      assert Entry(s, cap, a);
      assert Holders(s, s.agents[a]) == {};
    }
  }

  lemma {:induction false} OneConnectionStaysBounded(trace: seq<State>, i: nat, cap: nat, globalCap: nat)
    requires IsExecution(trace, cap, globalCap) && i < |trace| && globalCap <= 1
    ensures |trace[i].agents| <= MAX_AGENTS
  {
    hide Inv, Next;
    if i > 0 {
      OneConnectionStaysBounded(trace, i - 1, cap, globalCap);
      ExecutionsKeepInv(trace, i - 1, cap, globalCap);
      var s := trace[i - 1];
      assert Follows(s, trace[i - 1 + 1], cap);
      var step :| Next(s, step, trace[i], cap);
      if step.Acquire? {
        HasGlobalPermit(s, step, trace[i], cap);
        NobodyYet(s, cap, globalCap);
        NobodyMeansIdle(s, cap, globalCap);
        AcquireStaysBounded(s, step.conn, step.agent, step.now, trace[i], cap);
      } else {
        OthersStayBounded(s, step, trace[i], cap);
      }
    }
  }

  lemma HasGlobalPermit(s: State, step: Step, s1: State, cap: nat)
    requires step.Acquire? && Next(s, step, s1, cap)
    ensures s.globalFree > 0
  {
  }

  /** With no permit per agent nobody ever holds one, so every entry is idle. */
  ghost predicate NoPermits(s: State) {
    && s.agents.Keys == s.lastUsed.Keys
    && (forall a :: a in s.agents ==> s.agents[a] in s.free)
    && (forall sem :: sem in s.free ==> s.free[sem] == 0)
    && (forall c :: c in s.conns ==> !s.conns[c].holding)
  }

  lemma NoPermitsStep(s: State, step: Step, s1: State)
    requires NoPermits(s) && Next(s, step, s1, 0)
    ensures NoPermits(s1)
  {
    hide Evicted;
    match step
    case Acquire(c, agent, now) =>
      var e :| Begins(s, e, s1, c, agent, now, 0);
      EvictShape(s, e, 0, now);
      EnteredWithoutPermits(s, e, c, agent, now);
    case _ =>
  }

  lemma EnteredWithoutPermits(s: State, e: State, c: ConnId, agent: Agent, now: Time)
    requires NoPermits(s) && e.agents.Keys <= s.agents.Keys && e == Without(s, s.agents.Keys - e.agents.Keys)
    requires e.agents.Keys == e.lastUsed.Keys && s.globalFree > 0
    ensures var l := Looked(e, agent, now, 0);
            l.agents[agent] in l.free && l.globalFree > 0 && NoPermits(Entered(l, c, agent))
  {
  }

  lemma {:induction false} NoPermitsStaysBounded(trace: seq<State>, i: nat, globalCap: nat)
    requires IsExecution(trace, 0, globalCap) && i < |trace|
    ensures NoPermits(trace[i]) && |trace[i].agents| <= MAX_AGENTS
  {
    hide Next;
    if i > 0 {
      NoPermitsStaysBounded(trace, i - 1, globalCap);
      var s := trace[i - 1];
      assert Follows(s, trace[i - 1 + 1], 0);
      var step :| Next(s, step, trace[i], 0);
      NoPermitsStep(s, step, trace[i]);
      if step.Acquire? {
        assert AllIdle(s, 0);
        AcquireStaysBounded(s, step.conn, step.agent, step.now, trace[i], 0);
      } else {
        OthersStayBounded(s, step, trace[i], 0);
      }
    }
  }

  // ---- Larger caps: one old connection is enough to break it ---------------------------------

  /** Distinct agents, told apart by their length. */
  function Name(k: nat): Agent {
    seq(k + 1, _ => 'a')
  }

  function Agents(n: nat): map<Agent, SemId> {
    if n == 0 then map[Name(0) := 0] else Agents(n - 1)[Name(n) := n]
  }

  function Times(n: nat): map<Agent, Time> {
    if n == 0 then map[Name(0) := 0.0] else Times(n - 1)[Name(n) := 1.0]
  }

  function Permits(n: nat, cap: nat): map<SemId, nat>
    requires cap >= 1
  {
    if n == 0 then map[0 := cap - 1] else Permits(n - 1, cap)[n := cap]
  }

  /** Agent 0 has held a permit since time 0; agents 1 to `n` came and went at time 1. */
  function Grown(n: nat, cap: nat, globalCap: nat): State
    requires cap >= 1 && globalCap >= 2
  {
    State(globalCap - 1, Agents(n), Times(n), Permits(n, cap), map[0 := Conn(Name(0), 0, true)], n + 1)
  }

  lemma NameLength(k: nat)
    ensures |Name(k)| == k + 1
  {
  }

  lemma {:induction false} AgentsAre(n: nat)
    ensures forall a :: a in Agents(n) ==> |a| <= n + 1
    ensures Name(0) in Agents(n) && Agents(n)[Name(0)] == 0
    ensures |Agents(n)| == n + 1
  {
    hide Name;
    NameLength(n);
    NameLength(0);
    if n > 0 {
      AgentsAre(n - 1);
      assert Agents(n).Keys == Agents(n - 1).Keys + {Name(n)};
      assert |Agents(n).Keys| == |Agents(n - 1).Keys| + 1;
      assert |Agents(n)| == |Agents(n).Keys| && |Agents(n - 1)| == |Agents(n - 1).Keys|;
    }
  }

  lemma {:induction false} TimesAre(n: nat)
    ensures Times(n).Keys == Agents(n).Keys && Name(0) in Times(n) && Times(n)[Name(0)] == 0.0
    ensures forall a :: a in Times(n) && a != Name(0) ==> Times(n)[a] == 1.0
  {
    hide Name;
    NameLength(n);
    NameLength(0);
    if n > 0 {
      TimesAre(n - 1);
    }
  }

  lemma {:induction false} PermitsAre(n: nat, cap: nat)
    requires cap >= 1
    ensures forall sem: nat :: sem in Permits(n, cap) <==> sem <= n
    ensures Permits(n, cap)[0] == cap - 1
  {
    if n > 0 {
      PermitsAre(n - 1, cap);
    }
  }

  lemma TablesGrow(n: nat, cap: nat)
    requires cap >= 1
    ensures Agents(n + 1) == Agents(n)[Name(n + 1) := n + 1]
    ensures Times(n + 1) == Times(n)[Name(n + 1) := 1.0]
    ensures Permits(n + 1, cap) == Permits(n, cap)[n + 1 := cap]
    ensures Name(n + 1) !in Agents(n) && n + 1 !in Permits(n, cap)
  {
    AgentsAre(n);
    PermitsAre(n, cap);
    NameLength(n + 1);
  }

  /** Nothing is stale and the oldest entry is in use: eviction removes nothing. */
  lemma GrownKeepsAll(n: nat, cap: nat, globalCap: nat)
    requires cap >= 1 && globalCap >= 2
    ensures var s := Grown(n, cap, globalCap); Evicted(s, s, cap, 1.0)
  {
    var s := Grown(n, cap, globalCap);
    AgentsAre(n);
    TimesAre(n);
    PermitsAre(n, cap);
    hide Agents, Times, Permits, Name;
    assert s.agents.Keys - s.agents.Keys == {};
    assert Without(s, {}) == s;
    assert Oldest(s, Name(0)) && !Idle(s, cap, Name(0));
  }

  /** The next agent while it is connected. */
  function Visit(n: nat, cap: nat, globalCap: nat): State
    requires cap >= 1 && globalCap >= 2
  {
    State(globalCap - 2, Agents(n + 1), Times(n + 1), Permits(n, cap)[n + 1 := cap - 1],
          map[0 := Conn(Name(0), 0, true), 1 := Conn(Name(n + 1), n + 1, true)], n + 2)
  }

  lemma VisitBegins(n: nat, cap: nat, globalCap: nat)
    requires cap >= 1 && globalCap >= 2
    ensures Next(Grown(n, cap, globalCap), Acquire(1, Name(n + 1), 1.0), Visit(n, cap, globalCap), cap)
  {
    hide Agents, Times, Permits, Name, Evicted;
    var s, agent, permits := Grown(n, cap, globalCap), Name(n + 1), Permits(n, cap);
    GrownKeepsAll(n, cap, globalCap);
    TablesGrow(n, cap);
    var l := Looked(s, agent, 1.0, cap);
    assert l == State(globalCap - 1, Agents(n + 1), Times(n + 1), permits[n + 1 := cap], s.conns, n + 2);
    assert l.free[n + 1 := cap - 1] == Visit(n, cap, globalCap).free;
    assert s.conns[1 := Conn(agent, n + 1, true)] == Visit(n, cap, globalCap).conns;
    assert Begins(s, s, Visit(n, cap, globalCap), 1, agent, 1.0, cap);
  }

  lemma VisitEnds(n: nat, cap: nat, globalCap: nat)
    requires cap >= 1 && globalCap >= 2
    ensures Next(Visit(n, cap, globalCap), Release(1, 1.0), Grown(n + 1, cap, globalCap), cap)
  {
    hide Agents, Times, Permits, Name;
    var s, t, agent := Visit(n, cap, globalCap), Grown(n + 1, cap, globalCap), Name(n + 1);
    TablesGrow(n, cap);
    assert t.free == s.free[n + 1 := cap];
    assert t.lastUsed == s.lastUsed[agent := 1.0];
    assert t.conns == s.conns - {1};
    assert Released(s, t, 1, 1.0);
  }

  lemma FirstStays(cap: nat, globalCap: nat)
    requires cap >= 1 && globalCap >= 2
    ensures Next(Start(globalCap), Acquire(0, Name(0), 0.0), Grown(0, cap, globalCap), cap)
  {
    var s, agent := Start(globalCap), Name(0);
    assert |s.agents| == 0;
    assert Evicted(s, s, cap, 0.0);
    var l := Looked(s, agent, 0.0, cap);
    assert l.agents == Agents(0) && l.lastUsed == Times(0) && l.free == map[0 := cap];
    assert Entered(l, 0, agent) == Grown(0, cap, globalCap);
    assert Begins(s, s, Grown(0, cap, globalCap), 0, agent, 0.0, cap);
  }

  /** An execution that reaches a table of `n + 1` entries. */
  lemma {:induction false} GrowTo(n: nat, cap: nat, globalCap: nat) returns (trace: seq<State>)
    requires cap >= 1 && globalCap >= 2
    ensures IsExecution(trace, cap, globalCap) && trace[|trace| - 1] == Grown(n, cap, globalCap)
  {
    hide Next, Grown, Visit;
    if n == 0 {
      FirstStays(cap, globalCap);
      trace := [Start(globalCap), Grown(0, cap, globalCap)];
      assert Follows(trace[0], trace[1], cap);
    } else {
      var before := GrowTo(n - 1, cap, globalCap);
      VisitBegins(n - 1, cap, globalCap);
      VisitEnds(n - 1, cap, globalCap);
      ExecutionGrows(before, Acquire(1, Name(n), 1.0), Visit(n - 1, cap, globalCap), cap, globalCap);
      trace := before + [Visit(n - 1, cap, globalCap)];
      ExecutionGrows(trace, Release(1, 1.0), Grown(n, cap, globalCap), cap, globalCap);
      trace := trace + [Grown(n, cap, globalCap)];
    }
  }

  lemma ExecutionGrows(trace: seq<State>, step: Step, s: State, cap: nat, globalCap: nat)
    requires IsExecution(trace, cap, globalCap) && Next(trace[|trace| - 1], step, s, cap)
    ensures IsExecution(trace + [s], cap, globalCap)
  {
    hide Next;
    var longer := trace + [s];
    assert Follows(trace[|trace| - 1], s, cap);
    forall i | 0 <= i < |longer| - 1 ensures Follows(longer[i], longer[i + 1], cap) {
      if i < |trace| - 1 {
        assert Follows(trace[i], trace[i + 1], cap);
      }
    }
  }

  /** The table never exceeds its bound in any execution if and only if no agent can hold
      a permit or only one connection can exist. */
  lemma BoundHoldsIff(cap: nat, globalCap: nat)
    ensures AlwaysBounded(cap, globalCap) <==> cap == 0 || globalCap <= 1
  {
    hide IsExecution;
    if cap == 0 || globalCap <= 1 {
      forall trace: seq<State>, i: nat | IsExecution(trace, cap, globalCap) && i < |trace|
        ensures |trace[i].agents| <= MAX_AGENTS
      {
        if cap == 0 {
          NoPermitsStaysBounded(trace, i, globalCap);
        } else {
          OneConnectionStaysBounded(trace, i, cap, globalCap);
        }
      }
    } else {
      var trace := GrowTo(MAX_AGENTS, cap, globalCap);
      NotEmpty(trace, cap, globalCap);
      AgentsAre(MAX_AGENTS);
      assert |trace[|trace| - 1].agents| == MAX_AGENTS + 1;
    }
  }

  lemma NotEmpty(trace: seq<State>, cap: nat, globalCap: nat)
    requires IsExecution(trace, cap, globalCap)
    ensures trace != []
  {
  }

  // ---- A fixed set of agents ------------------------------------------------------------------

  /** Some step, acquiring for none but the given agents. */
  ghost predicate FollowsFor(s: State, s1: State, cap: nat, known: set<Agent>) {
    exists step :: Next(s, step, s1, cap) && (step.Acquire? ==> step.agent in known)
  }

  ghost predicate IsExecutionFor(trace: seq<State>, cap: nat, globalCap: nat, known: set<Agent>) {
    && trace != [] && trace[0] == Start(globalCap)
    && forall i: nat :: i + 1 < |trace| ==> FollowsFor(trace[i], trace[i + 1], cap, known)
  }

  /** The table never has more entries than there are agents: with the three agents that
      tokens are configured for, the bound is out of reach. */
  lemma {:induction false} KnownAgentsBoundTheTable(trace: seq<State>, i: nat, cap: nat, globalCap: nat,
                                                    known: set<Agent>)
    requires IsExecutionFor(trace, cap, globalCap, known) && i < |trace|
    ensures trace[i].agents.Keys <= known && |trace[i].agents| <= |known|
  {
    hide Next;
    if i > 0 {
      KnownAgentsBoundTheTable(trace, i - 1, cap, globalCap, known);
      var s := trace[i - 1];
      assert FollowsFor(s, trace[i - 1 + 1], cap, known);
      var step :| Next(s, step, trace[i], cap) && (step.Acquire? ==> step.agent in known);
      if step.Acquire? {
        AcquireAddsOnlyItsAgent(s, step, trace[i], cap);
      } else {
        OthersStayBounded(s, step, trace[i], cap);
      }
    }
    Sets.SubsetSize(trace[i].agents.Keys, known);
    assert |trace[i].agents| == |trace[i].agents.Keys|;
  }

  lemma AcquireAddsOnlyItsAgent(s: State, step: Step, s1: State, cap: nat)
    requires step.Acquire? && Next(s, step, s1, cap)
    ensures s1.agents.Keys <= s.agents.Keys + {step.agent}
  {
    hide Evicted;
    var e :| Begins(s, e, s1, step.conn, step.agent, step.now, cap);
    EvictShape(s, e, cap, step.now);
  }
}
