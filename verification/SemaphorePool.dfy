/** `PerAgentSemaphore` as an object. */
module SemaphorePool {
  import opened Semaphores

  class Pool {
    const perAgentCap: nat
    var globalFree: nat
    var agents: map<Agent, SemId>
    var lastUsed: map<Agent, Time>
    var free: map<SemId, nat>
    var nextSem: SemId
    ghost var conns: map<ConnId, Conn>

    constructor (perAgent: nat, globalCap: nat)
      ensures perAgentCap == perAgent && Contents() == Start(globalCap)
    {
      perAgentCap, globalFree := perAgent, globalCap;
      agents, lastUsed, free, nextSem, conns := map[], map[], map[], 0, map[];
    }

    ghost function Contents(): State
      reads this
    {
      State(globalFree, agents, lastUsed, free, conns, nextSem)
    }

    /** An agent whose entry was used no later than any other. */
    method OldestEntry() returns (oldest: Agent)
      requires lastUsed.Keys != {}
      ensures Oldest(Contents(), oldest)
    {
      var rest := lastUsed.Keys;
      oldest :| oldest in rest;
      rest := rest - {oldest};
      while rest != {}
        invariant rest <= lastUsed.Keys && oldest in lastUsed
        invariant forall b :: b in lastUsed && b !in rest ==> lastUsed[oldest] <= lastUsed[b]
        decreases |rest|
      {
        var b :| b in rest;
        rest := rest - {b};
        if lastUsed[b] < lastUsed[oldest] {
          oldest := b;
        }
      }
    }

    /** `_evict_lru_locked`. */
    method EvictLru(now: Time)
      requires agents.Keys == lastUsed.Keys
      requires forall a :: a in agents ==> agents[a] in free && free[agents[a]] <= perAgentCap
      modifies this`agents, this`lastUsed
      ensures Evicted(old(Contents()), Contents(), perAgentCap, now)
    {
      hide Evicted, Evicting;
      ghost var start := Contents();
      var expired := set a | a in lastUsed && now - lastUsed[a] > IDLE_TTL_SECS
                             && a in agents && free[agents[a]] == perAgentCap;
      agents := agents - expired;
      lastUsed := lastUsed - expired;
      ghost var gone := expired;
      EvictStart(start, perAgentCap, now, expired);
      while |agents| >= MAX_AGENTS
        invariant Contents() == Without(start, gone) && Evicting(start, gone, perAgentCap, now)
        decreases |agents|
      {
        SameKeys(start, gone);
        var oldest := OldestEntry();
        if free[agents[oldest]] < perAgentCap {
          break;
        }
        EvictOne(start, gone, perAgentCap, now, oldest);
        OneFewer(agents, oldest);
        agents := agents - {oldest};
        lastUsed := lastUsed - {oldest};
        gone := gone + {oldest};
      }
      EvictEnd(start, gone, perAgentCap, now);
    }

    /** `_semaphore_for`. */
    method SemaphoreFor(agent: Agent, now: Time) returns (sem: SemId)
      requires agents.Keys == lastUsed.Keys
      requires forall a :: a in agents ==> agents[a] in free && free[agents[a]] <= perAgentCap
      modifies this`agents, this`lastUsed, this`free, this`nextSem
      ensures exists e :: Evicted(old(Contents()), e, perAgentCap, now)
                       && Contents() == Looked(e, agent, now, perAgentCap)
      ensures agent in agents && agents[agent] == sem
    {
      EvictLru(now);
      ghost var e := Contents();
      if agent !in agents {
        agents := agents[agent := nextSem];
        free := free[nextSem := perAgentCap];
        nextSem := nextSem + 1;
      }
      lastUsed := lastUsed[agent := now];
      sem := agents[agent];
      assert Contents() == Looked(e, agent, now, perAgentCap);
    }

    /** `acquire`, from the moment a global permit is granted: true when the per-agent
        permit was granted at once, false when the caller now waits for it. */
    method Acquire(ghost c: ConnId, agent: Agent, now: Time, ghost globalCap: nat) returns (granted: bool)
      requires Inv(Contents(), perAgentCap, globalCap) && globalFree > 0 && c !in conns
      modifies this
      ensures Next(old(Contents()), Step.Acquire(c, agent, now), Contents(), perAgentCap)
      ensures c in conns && conns[c].agent == agent && (granted <==> conns[c].holding)
    {
      hide Evicted, Looked;
      ghost var start := Contents();
      EntriesExist(start, perAgentCap, globalCap);
      var sem := SemaphoreFor(agent, now);
      ghost var e :| Evicted(start, e, perAgentCap, now) && Contents() == Looked(e, agent, now, perAgentCap);
      ghost var looked := Contents();
      SemExists(start, e, agent, now, perAgentCap, globalCap);
      globalFree := globalFree - 1;
      granted := free[sem] > 0;
      if granted {
        free := free[sem := free[sem] - 1];
      }
      conns := conns[c := Conn(agent, sem, granted)];
      assert Contents() == Entered(looked, c, agent);
      assert Begins(start, e, Contents(), c, agent, now, perAgentCap);
    }

    /** The wait is cancelled: the global permit is given back. */
    method CancelWait(ghost c: ConnId)
      requires c in conns && !conns[c].holding
      modifies this
      ensures Next(old(Contents()), Cancel(c), Contents(), perAgentCap)
    {
      globalFree := globalFree + 1;
      conns := conns - {c};
    }

    /** The wait is cancelled when the permit has just come: the semaphore undoes the
        grant, waking `waiter` if there is one, and the global permit is given back. */
    method CancelGrant(ghost c: ConnId, sem: SemId, ghost waiter: ConnId, wakes: bool)
      requires c in conns && conns[c].holding && conns[c].sem == sem && sem in free
      requires wakes ==> waiter != c && Waiting(Contents(), waiter, sem)
      requires !wakes ==> forall w :: w != c ==> !Waiting(Contents(), w, sem)
      modifies this
      ensures Next(old(Contents()), CancelGranted(c), Contents(), perAgentCap)
    {
      ghost var start := Contents();
      if wakes {
        conns := (conns - {c})[waiter := conns[waiter].(holding := true)];
      } else {
        free := free[sem := free[sem] + 1];
        conns := conns - {c};
      }
      globalFree := globalFree + 1;
      ReturnedAs(start, Contents(), c, waiter, wakes);
    }

    /** `release`, with `waiter` the connection its semaphore wakes, if any. */
    method Release(agent: Agent, now: Time, ghost c: ConnId, ghost waiter: ConnId, wakes: bool)
      requires c in conns && conns[c].holding && conns[c].agent == agent
      requires agent in agents ==> agents[agent] in free
      requires agent in agents && wakes ==> waiter != c && Waiting(Contents(), waiter, agents[agent])
      requires agent in agents && !wakes ==> forall w :: w != c ==> !Waiting(Contents(), w, agents[agent])
      modifies this
      ensures Next(old(Contents()), Step.Release(c, now), Contents(), perAgentCap)
    {
      ghost var start := Contents();
      if agent in agents {
        var sem := agents[agent];
        if wakes {
          conns := (conns - {c})[waiter := conns[waiter].(holding := true)];
        } else {
          free := free[sem := free[sem] + 1];
          conns := conns - {c};
        }
        lastUsed := lastUsed[agent := now];
      } else {
        conns := conns - {c};
      }
      globalFree := globalFree + 1;
      ReleasedAs(start, Contents(), c, now, waiter, wakes);
    }
  }

  /** What `release` does, by cases. */
  lemma ReleasedAs(s: State, s1: State, c: ConnId, now: Time, w: ConnId, wakes: bool)
    requires c in s.conns && s.conns[c].holding
    requires var agent := s.conns[c].agent;
      var base := s.(globalFree := s.globalFree + 1, conns := s.conns - {c});
      if agent !in s.agents then s1 == base
      else
        && s.agents[agent] in s.free
        && var sem := s.agents[agent];
           var touched := base.(lastUsed := base.lastUsed[agent := now]);
           if wakes then
             && w != c && Waiting(s, w, sem)
             && s1 == touched.(conns := touched.conns[w := s.conns[w].(holding := true)])
           else
             && (forall w' :: w' != c ==> !Waiting(s, w', sem))
             && s1 == touched.(free := touched.free[sem := touched.free[sem] + 1])
    ensures forall cap: nat :: Next(s, Step.Release(c, now), s1, cap)
  {
    assert Released(s, s1, c, now);
  }

  lemma ReturnedAs(s: State, s1: State, c: ConnId, w: ConnId, wakes: bool)
    requires c in s.conns && s.conns[c].holding
    requires var base := s.(globalFree := s.globalFree + 1, conns := s.conns - {c});
      var sem := s.conns[c].sem;
      if wakes then
        && w != c && Waiting(s, w, sem)
        && s1 == base.(conns := base.conns[w := s.conns[w].(holding := true)])
      else
        && (forall w' :: w' != c ==> !Waiting(s, w', sem))
        && sem in s.free && s1 == base.(free := base.free[sem := base.free[sem] + 1])
    ensures forall cap: nat :: Next(s, CancelGranted(c), s1, cap)
  {
    assert Returned(s, s1, c);
  }

  // ---- The eviction loop: `gone` are the entries removed so far ---------------------------

  ghost predicate Evicting(s: State, gone: set<Agent>, cap: nat, now: Time) {
    && gone <= s.agents.Keys
    && (forall a :: a in gone ==> Idle(s, cap, a))
    && (forall a :: Stale(s, cap, now, a) ==> a in gone)
    && (forall a :: a in gone && !Stale(s, cap, now, a) ==>
          && |Without(s, gone).agents| >= MAX_AGENTS - 1
          && a in s.lastUsed
          && forall b :: b in s.lastUsed && b !in gone ==> s.lastUsed[a] <= s.lastUsed[b])
  }

  lemma EvictStart(s: State, cap: nat, now: Time, expired: set<Agent>)
    requires forall a :: a in expired <==> Stale(s, cap, now, a)
    ensures Evicting(s, expired, cap, now)
  {
  }

  lemma SameKeys(s: State, gone: set<Agent>)
    requires s.agents.Keys == s.lastUsed.Keys
    ensures Without(s, gone).agents.Keys == Without(s, gone).lastUsed.Keys == s.agents.Keys - gone
    ensures |Without(s, gone).agents| > 0 ==> Without(s, gone).lastUsed.Keys != {}
  {
    var e := Without(s, gone);
    assert |e.agents| == |e.agents.Keys|;
  }

  lemma EvictOne(s: State, gone: set<Agent>, cap: nat, now: Time, a: Agent)
    requires Evicting(s, gone, cap, now) && s.agents.Keys == s.lastUsed.Keys
    requires |Without(s, gone).agents| >= MAX_AGENTS
    requires Oldest(Without(s, gone), a) && Idle(s, cap, a)
    ensures Evicting(s, gone + {a}, cap, now)
    ensures Without(s, gone + {a}) ==
      s.(agents := Without(s, gone).agents - {a}, lastUsed := Without(s, gone).lastUsed - {a})
  {
    var e, e1 := Without(s, gone), Without(s, gone + {a});
    assert e1.agents == e.agents - {a} && e1.lastUsed == e.lastUsed - {a};
    OneFewer(e.agents, a);
    assert |e1.agents| >= MAX_AGENTS - 1;
    assert forall b :: b in s.lastUsed && b !in gone ==> b in e.lastUsed && e.lastUsed[b] == s.lastUsed[b];
    forall b | b in s.lastUsed && b !in gone ensures s.lastUsed[a] <= s.lastUsed[b] {
      assert e.lastUsed[a] <= e.lastUsed[b];
    }
  }

  lemma EvictEnd(s: State, gone: set<Agent>, cap: nat, now: Time)
    requires Evicting(s, gone, cap, now)
    requires |Without(s, gone).agents| < MAX_AGENTS || exists a :: Oldest(Without(s, gone), a) && !Idle(s, cap, a)
    ensures Evicted(s, Without(s, gone), cap, now)
  {
    assert s.agents.Keys - Without(s, gone).agents.Keys == gone;
  }

  lemma OneFewer(m: map<Agent, SemId>, a: Agent)
    requires a in m
    ensures |m - {a}| == |m| - 1
  {
    var n := m - {a};
    assert m.Keys == n.Keys + {a};
    assert |m.Keys| == |n.Keys| + 1;
    assert |m| == |m.Keys| && |n| == |n.Keys|;
  }

  lemma EntriesExist(s: State, cap: nat, globalCap: nat)
    requires Inv(s, cap, globalCap)
    ensures s.agents.Keys == s.lastUsed.Keys
    ensures forall a :: a in s.agents ==> s.agents[a] in s.free && s.free[s.agents[a]] <= cap
  {
    forall a | a in s.agents ensures s.agents[a] in s.free && s.free[s.agents[a]] <= cap {
      assert Entry(s, cap, a);
    }
  }

  lemma SemExists(s: State, e: State, agent: Agent, now: Time, cap: nat, globalCap: nat)
    requires Inv(s, cap, globalCap) && Evicted(s, e, cap, now)
    ensures var l := Looked(e, agent, now, cap);
            agent in l.agents && l.agents[agent] in l.free && l.globalFree == s.globalFree && l.conns == s.conns
  {
    EntriesExist(s, cap, globalCap);
  }
}
