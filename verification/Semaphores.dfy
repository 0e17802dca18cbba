/** Two-level connection slots: a global semaphore and one per agent, with eviction
    of idle per-agent entries (`PerAgentSemaphore`). */
module Semaphores {
  import opened Sets

  type Agent = string
  type SemId = nat
  type ConnId = nat
  type Time = real

  const MAX_AGENTS := 256
  const IDLE_TTL_SECS := 3600.0

  /** A connection holds a global permit and either holds or waits for a permit of
      the semaphore it was handed. */
  datatype Conn = Conn(agent: Agent, sem: SemId, holding: bool)

  datatype State = State(globalFree: nat, agents: map<Agent, SemId>, lastUsed: map<Agent, Time>,
                         free: map<SemId, nat>, conns: map<ConnId, Conn>, nextSem: SemId)

  function Start(globalCap: nat): State {
    State(globalCap, map[], map[], map[], map[], 0)
  }

  // ---- Eviction ---------------------------------------------------------------------

  /** No permit of the entry's semaphore is taken. */
  predicate Idle(s: State, cap: nat, a: Agent) {
    a in s.agents && s.agents[a] in s.free && s.free[s.agents[a]] == cap
  }

  predicate Expired(s: State, now: Time, a: Agent) {
    a in s.lastUsed && now - s.lastUsed[a] > 3600.0
  }

  /** An entry used no later than any other. */
  predicate Oldest(s: State, a: Agent) {
    a in s.lastUsed && forall b :: b in s.lastUsed ==> s.lastUsed[a] <= s.lastUsed[b]
  }

  function Without(s: State, gone: set<Agent>): State {
    s.(agents := s.agents - gone, lastUsed := s.lastUsed - gone)
  }

  predicate Stale(s: State, cap: nat, now: Time, a: Agent) {
    Idle(s, cap, a) && Expired(s, now, a)
  }

  /** What one eviction does: every stale entry goes; after that only idle entries go,
      least recently used first and only down to one below the bound; and it stops
      above the bound only at an entry that is in use. */
  ghost predicate Evicted(s: State, s1: State, cap: nat, now: Time) {
    var gone := s.agents.Keys - s1.agents.Keys;
    && s1.agents.Keys <= s.agents.Keys
    && s1 == Without(s, gone)
    && (forall a :: a in gone ==> Idle(s, cap, a))
    && (forall a :: Stale(s, cap, now, a) ==> a !in s1.agents)
    && (forall a :: a in gone && !Stale(s, cap, now, a) ==>
          && |s1.agents| >= 255
          && a in s.lastUsed
          && forall b :: b in s1.lastUsed ==> b in s.lastUsed && s.lastUsed[a] <= s.lastUsed[b])
    && (|s1.agents| < 256 || exists a :: Oldest(s1, a) && !Idle(s, cap, a))
  }

  // ---- Steps ----------------------------------------------------------------------------

  datatype Step =
    | Acquire(conn: ConnId, agent: Agent, now: Time)  // a global permit is free: up to the per-agent wait
    | Cancel(conn: ConnId)                            // a waiter is cancelled
    | CancelGranted(conn: ConnId)                     // a waiter is cancelled after its permit came
    | Release(conn: ConnId, now: Time)                // a holder releases

  ghost predicate Waiting(s: State, c: ConnId, sem: SemId) {
    c in s.conns && !s.conns[c].holding && s.conns[c].sem == sem
  }

  /** The entry of the agent, created if absent, after eviction. */
  function Looked(s: State, agent: Agent, now: Time, cap: nat): State {
    if agent in s.agents then s.(lastUsed := s.lastUsed[agent := now])
    else State(s.globalFree, s.agents[agent := s.nextSem], s.lastUsed[agent := now],
               s.free[s.nextSem := cap], s.conns, s.nextSem + 1)
  }

  /** Taking a permit of the agent's semaphore, or starting to wait for one. */
  function Entered(s: State, c: ConnId, agent: Agent): State
    requires agent in s.agents && s.agents[agent] in s.free && s.globalFree > 0
  {
    var sem := s.agents[agent];
    if s.free[sem] > 0 then
      s.(globalFree := s.globalFree - 1, free := s.free[sem := s.free[sem] - 1],
         conns := s.conns[c := Conn(agent, sem, true)])
    else s.(globalFree := s.globalFree - 1, conns := s.conns[c := Conn(agent, sem, false)])
  }

  /** `release` finds the semaphore by the agent's name; its permit passes to a
      waiter of that semaphore if there is one. */
  ghost predicate Released(s: State, s1: State, c: ConnId, now: Time)
    requires c in s.conns
  {
    var agent := s.conns[c].agent;
    var base := s.(globalFree := s.globalFree + 1, conns := s.conns - {c});
    if agent !in s.agents || s.agents[agent] !in s.free then s1 == base
    else
      var sem := s.agents[agent];
      var touched := base.(lastUsed := base.lastUsed[agent := now]);
      if exists w :: w != c && Waiting(s, w, sem) then
        exists w :: w != c && Waiting(s, w, sem)
                 && s1 == touched.(conns := touched.conns[w := s.conns[w].(holding := true)])
      else s1 == touched.(free := touched.free[sem := touched.free[sem] + 1])
  }

  /** The permit that came too late goes on to another waiter of the same semaphore, or
      back; `release` is not called, so no time of use is noted. */
  ghost predicate Returned(s: State, s1: State, c: ConnId)
    requires c in s.conns
  {
    var sem := s.conns[c].sem;
    var base := s.(globalFree := s.globalFree + 1, conns := s.conns - {c});
    if exists w :: w != c && Waiting(s, w, sem) then
      exists w :: w != c && Waiting(s, w, sem)
               && s1 == base.(conns := base.conns[w := s.conns[w].(holding := true)])
    else sem in s.free && s1 == base.(free := base.free[sem := base.free[sem] + 1])
  }

  /** With a global permit: evict down to `e`, look the entry up, take or await a
      permit of it. Nothing suspends before the wait. */
  ghost predicate Begins(s: State, e: State, s1: State, c: ConnId, agent: Agent, now: Time, cap: nat)
    requires s.globalFree > 0
  {
    && Evicted(s, e, cap, now)
    && var l := Looked(e, agent, now, cap);
       l.agents[agent] in l.free && s1 == Entered(l, c, agent)
  }

  ghost predicate Next(s: State, step: Step, s1: State, cap: nat) {
    match step
    case Acquire(c, agent, now) =>
      c !in s.conns && s.globalFree > 0 && exists e :: Begins(s, e, s1, c, agent, now, cap)
    case Cancel(c) =>
      && c in s.conns && !s.conns[c].holding
      && s1 == s.(globalFree := s.globalFree + 1, conns := s.conns - {c})
    case CancelGranted(c) =>
      c in s.conns && s.conns[c].holding && Returned(s, s1, c)
    case Release(c, now) =>
      c in s.conns && s.conns[c].holding && Released(s, s1, c, now)
  }

  // ---- What every interleaving keeps -------------------------------------------------------

  function Holders(s: State, sem: SemId): set<ConnId> {
    set c | c in s.conns && s.conns[c].holding && s.conns[c].sem == sem
  }

  ghost predicate Entry(s: State, cap: nat, a: Agent)
    requires a in s.agents
  {
    var sem := s.agents[a];
    sem < s.nextSem && sem in s.free && s.free[sem] + |Holders(s, sem)| == cap
  }

  ghost predicate Seated(s: State, c: ConnId)
    requires c in s.conns
  {
    var conn := s.conns[c];
    && conn.agent in s.agents && s.agents[conn.agent] == conn.sem && conn.sem in s.free
    && (!conn.holding ==> s.free[conn.sem] == 0)
  }

  /** Free permits and holders of an agent make up its cap. */
  ghost predicate Counts(s: State, cap: nat) {
    forall a :: a in s.agents ==> Entry(s, cap, a)
  }

  /** Whoever holds or waits finds the semaphore it was handed under its agent's name. */
  ghost predicate Seats(s: State) {
    forall c :: c in s.conns ==> Seated(s, c)
  }

  ghost predicate Distinct(s: State) {
    forall a, b :: a in s.agents && b in s.agents && s.agents[a] == s.agents[b] ==> a == b
  }

  ghost predicate Inv(s: State, cap: nat, globalCap: nat) {
    // Conservation: every global permit is free, or with a holder or a per-agent waiter.
    && s.globalFree + |s.conns| == globalCap
    && s.agents.Keys == s.lastUsed.Keys
    && Counts(s, cap)
    && Seats(s)
    && Distinct(s)
  }

  lemma PlusOne(a: set<ConnId>, b: set<ConnId>, x: ConnId)
    requires x !in a && b == a + {x}
    ensures |b| == |a| + 1
  {
  }

  lemma MapPlusOne(a: map<ConnId, Conn>, b: map<ConnId, Conn>, x: ConnId)
    requires x !in a && b.Keys == a.Keys + {x}
    ensures |b| == |a| + 1
  {
    PlusOne(a.Keys, b.Keys, x);
    assert |a| == |a.Keys| && |b| == |b.Keys|;
  }

  lemma MapSameSize(a: map<ConnId, Conn>, b: map<ConnId, Conn>)
    requires b.Keys == a.Keys
    ensures |b| == |a|
  {
    assert |a| == |a.Keys| && |b| == |b.Keys|;
  }

  // ---- Eviction and lookup

  /** With at least one permit per agent, an entry somebody uses is not idle. */
  lemma UsedIsNotIdle(s: State, cap: nat, c: ConnId)
    requires Counts(s, cap) && Seats(s) && cap >= 1 && c in s.conns
    ensures !Idle(s, cap, s.conns[c].agent)
  {
    assert Seated(s, c);
    if s.conns[c].holding {
      assert Entry(s, cap, s.conns[c].agent);
      assert c in Holders(s, s.conns[c].sem);
    }
  }

  lemma EvictKeepsInv(s: State, e: State, cap: nat, globalCap: nat, now: Time)
    requires Inv(s, cap, globalCap) && (cap >= 1 || s.conns == map[])
    requires Evicted(s, e, cap, now)
    ensures Inv(e, cap, globalCap)
  {
    hide Seats, Counts, Evicted, Distinct;
    EvictShape(s, e, cap, now);
    EvictSeats(s, e, cap, now);
    EvictCounts(s, e, cap);
    EvictDistinct(s, e);
  }

  lemma EvictShape(s: State, e: State, cap: nat, now: Time)
    requires Evicted(s, e, cap, now)
    ensures e.agents.Keys <= s.agents.Keys && e == Without(s, s.agents.Keys - e.agents.Keys)
    ensures s.agents.Keys == s.lastUsed.Keys ==> e.agents.Keys == e.lastUsed.Keys
  {
  }

  lemma EvictDistinct(s: State, e: State)
    requires Distinct(s) && e.agents.Keys <= s.agents.Keys
    requires e == Without(s, s.agents.Keys - e.agents.Keys)
    ensures Distinct(e)
  {
  }

  lemma EvictSeats(s: State, e: State, cap: nat, now: Time)
    requires Counts(s, cap) && Seats(s) && (cap >= 1 || s.conns == map[])
    requires Evicted(s, e, cap, now)
    ensures Seats(e)
  {
    forall c | c in e.conns ensures Seated(e, c) {
      assert Seated(s, c);
      UsedIsNotIdle(s, cap, c);
    }
  }

  lemma EvictCounts(s: State, e: State, cap: nat)
    requires Counts(s, cap) && e.agents.Keys <= s.agents.Keys
    requires e == Without(s, s.agents.Keys - e.agents.Keys)
    ensures Counts(e, cap)
  {
    forall a | a in e.agents ensures Entry(e, cap, a) {
      assert Entry(s, cap, a);
      assert Holders(e, e.agents[a]) == Holders(s, s.agents[a]);
    }
  }

  /** No connection sits on a semaphore that does not exist yet. */
  lemma NewSemIsUnused(s: State, cap: nat, c: ConnId)
    requires Counts(s, cap) && Seats(s) && c in s.conns
    ensures s.conns[c].sem < s.nextSem
  {
    assert Seated(s, c);
    assert Entry(s, cap, s.conns[c].agent);
  }

  lemma LookedCounts(s: State, agent: Agent, now: Time, cap: nat)
    requires Counts(s, cap) && Seats(s)
    ensures Counts(Looked(s, agent, now, cap), cap)
  {
    var l := Looked(s, agent, now, cap);
    forall a | a in l.agents ensures Entry(l, cap, a) {
      assert Holders(l, l.agents[a]) == Holders(s, l.agents[a]);
      if a in s.agents {
        assert Entry(s, cap, a);
      } else {
        forall c | c in s.conns ensures s.conns[c].sem != s.nextSem {
          NewSemIsUnused(s, cap, c);
        }
        assert Holders(s, s.nextSem) == {};
      }
    }
  }

  lemma LookedSeats(s: State, agent: Agent, now: Time, cap: nat)
    requires Counts(s, cap) && Seats(s)
    ensures Seats(Looked(s, agent, now, cap))
  {
    var l := Looked(s, agent, now, cap);
    forall c | c in l.conns ensures Seated(l, c) {
      assert Seated(s, c);
      NewSemIsUnused(s, cap, c);
    }
  }

  lemma LookedDistinct(s: State, agent: Agent, now: Time, cap: nat)
    requires Counts(s, cap) && Distinct(s)
    ensures Distinct(Looked(s, agent, now, cap))
  {
    forall a | a in s.agents ensures s.agents[a] != s.nextSem {
      assert Entry(s, cap, a);
    }
  }

  lemma LookedKeepsInv(s: State, agent: Agent, now: Time, cap: nat, globalCap: nat)
    requires Inv(s, cap, globalCap)
    ensures Inv(Looked(s, agent, now, cap), cap, globalCap)
  {
    hide Counts, Seats, Distinct;
    LookedCounts(s, agent, now, cap);
    LookedSeats(s, agent, now, cap);
    LookedDistinct(s, agent, now, cap);
  }

  // ---- Entering

  lemma EnteredCounts(s: State, c: ConnId, agent: Agent, cap: nat)
    requires Counts(s, cap) && Distinct(s) && agent in s.agents && c !in s.conns && s.globalFree > 0
    ensures Entry(s, cap, agent)
    ensures Counts(Entered(s, c, agent), cap)
  {
    assert Entry(s, cap, agent);
    var t := Entered(s, c, agent);
    forall a | a in t.agents ensures Entry(t, cap, a) {
      assert Entry(s, cap, a);
      EnteredEntry(s, c, agent, cap, a);
    }
  }

  lemma EnteredEntry(s: State, c: ConnId, agent: Agent, cap: nat, a: Agent)
    requires agent in s.agents && a in s.agents && c !in s.conns && s.globalFree > 0
    requires s.agents[a] == s.agents[agent] ==> a == agent
    requires Entry(s, cap, a) && Entry(s, cap, agent)
    ensures Entry(Entered(s, c, agent), cap, a)
  {
    var t, sem := Entered(s, c, agent), s.agents[agent];
    if s.free[sem] > 0 && a == agent {
      assert Holders(t, sem) == Holders(s, sem) + {c};
      PlusOne(Holders(s, sem), Holders(t, sem), c);
    } else {
      assert Holders(t, t.agents[a]) == Holders(s, t.agents[a]);
    }
  }

  lemma EnteredSeats(s: State, c: ConnId, agent: Agent, cap: nat)
    requires HasEntry(s, cap, agent) && Seats(s) && c !in s.conns && s.globalFree > 0
    ensures Seats(Entered(s, c, agent))
  {
    var t := Entered(s, c, agent);
    forall d | d in t.conns ensures Seated(t, d) {
      if d != c {
        assert Seated(s, d);
      }
    }
  }

  ghost predicate HasEntry(s: State, cap: nat, a: Agent) {
    a in s.agents && Entry(s, cap, a)
  }

  lemma EnteredKeepsInv(s: State, c: ConnId, agent: Agent, cap: nat, globalCap: nat)
    requires Inv(s, cap, globalCap) && agent in s.agents && c !in s.conns && s.globalFree > 0
    ensures Entry(s, cap, agent)
    ensures Inv(Entered(s, c, agent), cap, globalCap)
  {
    hide Counts, Seats;
    EnteredCounts(s, c, agent, cap);
    EnteredSeats(s, c, agent, cap);
    MapPlusOne(s.conns, Entered(s, c, agent).conns, c);
  }

  // ---- Leaving

  /** The state with one connection gone and its global permit free. */
  function Left(s: State, c: ConnId): State {
    s.(globalFree := s.globalFree + 1, conns := s.conns - {c})
  }

  lemma LeftCounts(s: State, c: ConnId, cap: nat)
    requires Counts(s, cap) && c in s.conns && !s.conns[c].holding
    ensures Counts(Left(s, c), cap)
  {
    var t := Left(s, c);
    forall a | a in t.agents ensures Entry(t, cap, a) {
      assert Entry(s, cap, a);
      assert Holders(t, t.agents[a]) == Holders(s, t.agents[a]);
    }
  }

  lemma LeftSeats(s: State, c: ConnId)
    requires Seats(s)
    ensures Seats(Left(s, c))
  {
    forall d | d in Left(s, c).conns ensures Seated(Left(s, c), d) {
      assert Seated(s, d);
    }
  }

  lemma CancelKeepsInv(s: State, c: ConnId, cap: nat, globalCap: nat)
    requires Inv(s, cap, globalCap) && c in s.conns && !s.conns[c].holding
    ensures Inv(Left(s, c), cap, globalCap)
  {
    hide Counts, Seats, Distinct;
    LeftCounts(s, c, cap);
    LeftSeats(s, c);
    LeftSize(s, c);
    SameAgentsDistinct(s, Left(s, c));
  }

  lemma LeftSize(s: State, c: ConnId)
    requires c in s.conns
    ensures |Left(s, c).conns| == |s.conns| - 1
  {
    MapPlusOne(Left(s, c).conns, s.conns, c);
  }

  lemma SameAgentsDistinct(s: State, t: State)
    requires Distinct(s) && t.agents == s.agents
    ensures Distinct(t)
  {
  }

  /** After a hand-over: `c` is gone and the waiter `w` holds its permit. */
  function HandedOver(s: State, c: ConnId, w: ConnId): State
    requires c in s.conns && w in s.conns
  {
    Left(s, c).(conns := Left(s, c).conns[w := s.conns[w].(holding := true)])
  }

  lemma HandOverCounts(s: State, c: ConnId, w: ConnId, cap: nat)
    requires Counts(s, cap) && c in s.conns && s.conns[c].holding
    requires w != c && Waiting(s, w, s.conns[c].sem)
    ensures Counts(HandedOver(s, c, w), cap)
  {
    var t, sem := HandedOver(s, c, w), s.conns[c].sem;
    forall a | a in t.agents ensures Entry(t, cap, a) {
      assert Entry(s, cap, a);
      if t.agents[a] == sem {
        var both := Holders(s, sem) + {w};
        PlusOne(Holders(s, sem), both, w);
        assert both == Holders(t, sem) + {c};
        PlusOne(Holders(t, sem), both, c);
      } else {
        assert Holders(t, t.agents[a]) == Holders(s, t.agents[a]);
      }
    }
  }

  lemma HandOverSeats(s: State, c: ConnId, w: ConnId)
    requires Seats(s) && c in s.conns && w != c && Waiting(s, w, s.conns[c].sem)
    ensures Seats(HandedOver(s, c, w))
  {
    var t := HandedOver(s, c, w);
    forall d | d in t.conns ensures Seated(t, d) {
      assert Seated(s, d);
    }
  }

  lemma HandOverKeepsInv(s: State, c: ConnId, w: ConnId, cap: nat, globalCap: nat)
    requires Inv(s, cap, globalCap) && c in s.conns && s.conns[c].holding
    requires w != c && Waiting(s, w, s.conns[c].sem)
    ensures Inv(HandedOver(s, c, w), cap, globalCap)
  {
    hide Counts, Seats;
    HandOverCounts(s, c, w, cap);
    HandOverSeats(s, c, w);
    MapPlusOne(s.conns - {c}, s.conns, c);
    MapSameSize(s.conns - {c}, HandedOver(s, c, w).conns);
  }

  /** After a release nobody waits for: the permit is free. */
  function Freed(s: State, c: ConnId): State
    requires c in s.conns && s.conns[c].sem in s.free
  {
    Left(s, c).(free := s.free[s.conns[c].sem := s.free[s.conns[c].sem] + 1])
  }

  lemma FreedCounts(s: State, c: ConnId, cap: nat)
    requires Counts(s, cap) && c in s.conns && s.conns[c].holding && s.conns[c].sem in s.free
    ensures Counts(Freed(s, c), cap)
  {
    var t, sem := Freed(s, c), s.conns[c].sem;
    forall a | a in t.agents ensures Entry(t, cap, a) {
      assert Entry(s, cap, a);
      if t.agents[a] == sem {
        PlusOne(Holders(t, sem), Holders(s, sem), c);
      } else {
        assert Holders(t, t.agents[a]) == Holders(s, t.agents[a]);
      }
    }
  }

  lemma FreedSeats(s: State, c: ConnId)
    requires Seats(s) && c in s.conns && s.conns[c].sem in s.free
    requires forall w :: w != c ==> !Waiting(s, w, s.conns[c].sem)
    ensures Seats(Freed(s, c))
  {
    var t := Freed(s, c);
    forall d | d in t.conns ensures Seated(t, d) {
      assert Seated(s, d);
      assert !Waiting(s, d, s.conns[c].sem);
    }
  }

  lemma FreedKeepsInv(s: State, c: ConnId, cap: nat, globalCap: nat)
    requires Inv(s, cap, globalCap) && c in s.conns && s.conns[c].holding && s.conns[c].sem in s.free
    requires forall w :: w != c ==> !Waiting(s, w, s.conns[c].sem)
    ensures Inv(Freed(s, c), cap, globalCap)
  {
    hide Counts, Seats;
    FreedCounts(s, c, cap);
    FreedSeats(s, c);
    MapPlusOne(s.conns - {c}, s.conns, c);
  }

  /** The time of last use matters to no part of the invariant. */
  lemma TouchKeepsInv(s: State, agent: Agent, now: Time, cap: nat, globalCap: nat)
    requires Inv(s, cap, globalCap) && agent in s.agents
    ensures Inv(s.(lastUsed := s.lastUsed[agent := now]), cap, globalCap)
  {
    var t := s.(lastUsed := s.lastUsed[agent := now]);
    forall a | a in t.agents ensures Entry(t, cap, a) {
      assert Entry(s, cap, a);
      assert Holders(t, t.agents[a]) == Holders(s, t.agents[a]);
    }
    forall d | d in t.conns ensures Seated(t, d) {
      assert Seated(s, d);
    }
  }

  lemma ReleaseKeepsInv(s: State, s1: State, c: ConnId, now: Time, cap: nat, globalCap: nat)
    requires Inv(s, cap, globalCap) && c in s.conns && s.conns[c].holding && Released(s, s1, c, now)
    ensures Inv(s1, cap, globalCap)
  {
    hide Counts, Distinct, Inv;
    assert Seated(s, c) by { SeatOf(s, c, cap, globalCap); }
    var agent, sem := s.conns[c].agent, s.conns[c].sem;
    if exists w :: w != c && Waiting(s, w, sem) {
      var w :| w != c && Waiting(s, w, sem)
        && s1 == HandedOver(s, c, w).(lastUsed := s.lastUsed[agent := now]);
      HandOverKeepsInv(s, c, w, cap, globalCap);
      TouchKeepsInv(HandedOver(s, c, w), agent, now, cap, globalCap);
    } else {
      FreedKeepsInv(s, c, cap, globalCap);
      TouchKeepsInv(Freed(s, c), agent, now, cap, globalCap);
    }
  }

  lemma ReturnKeepsInv(s: State, s1: State, c: ConnId, cap: nat, globalCap: nat)
    requires Inv(s, cap, globalCap) && c in s.conns && s.conns[c].holding && Returned(s, s1, c)
    ensures Inv(s1, cap, globalCap)
  {
    hide Counts, Distinct, Inv;
    assert Seated(s, c) by { SeatOf(s, c, cap, globalCap); }
    var sem := s.conns[c].sem;
    if exists w :: w != c && Waiting(s, w, sem) {
      var w :| w != c && Waiting(s, w, sem) && s1 == HandedOver(s, c, w);
      HandOverKeepsInv(s, c, w, cap, globalCap);
    } else {
      FreedKeepsInv(s, c, cap, globalCap);
    }
  }

  lemma SeatOf(s: State, c: ConnId, cap: nat, globalCap: nat)
    requires Inv(s, cap, globalCap) && c in s.conns
    ensures Seated(s, c)
  {
  }

  lemma AcquireKeepsInv(s: State, e: State, s1: State, c: ConnId, agent: Agent, now: Time,
                        cap: nat, globalCap: nat)
    requires Inv(s, cap, globalCap) && (cap >= 1 || globalCap <= 1)
    requires c !in s.conns && s.globalFree > 0 && Begins(s, e, s1, c, agent, now, cap)
    ensures Inv(s1, cap, globalCap)
  {
    hide Inv, Entered;
    NobodyYet(s, cap, globalCap);
    EvictKeepsInv(s, e, cap, globalCap, now);
    LookedKeepsInv(e, agent, now, cap, globalCap);
    EnteredKeepsInv(Looked(e, agent, now, cap), c, agent, cap, globalCap);
  }

  lemma StepKeepsInv(s: State, step: Step, s1: State, cap: nat, globalCap: nat)
    requires Inv(s, cap, globalCap) && (cap >= 1 || globalCap <= 1) && Next(s, step, s1, cap)
    ensures Inv(s1, cap, globalCap)
  {
    hide Inv, Released, Begins, Returned;
    match step
    case Acquire(c, agent, now) =>
      var e :| Begins(s, e, s1, c, agent, now, cap);
      AcquireKeepsInv(s, e, s1, c, agent, now, cap, globalCap);
    case Cancel(c) => CancelKeepsInv(s, c, cap, globalCap);
    case CancelGranted(c) => ReturnKeepsInv(s, s1, c, cap, globalCap);
    case Release(c, now) => ReleaseKeepsInv(s, s1, c, now, cap, globalCap);
  }

  lemma NobodyYet(s: State, cap: nat, globalCap: nat)
    requires Inv(s, cap, globalCap)
    ensures globalCap <= 1 && s.globalFree > 0 ==> s.conns == map[]
  {
  }

  // ---- Whole executions ------------------------------------------------------------------

  ghost predicate Follows(s: State, s1: State, cap: nat) {
    exists step :: Next(s, step, s1, cap)
  }

  ghost predicate IsExecution(trace: seq<State>, cap: nat, globalCap: nat) {
    && trace != [] && trace[0] == Start(globalCap)
    && forall i :: 0 <= i < |trace| - 1 ==> Follows(trace[i], trace[i + 1], cap)
  }

  /** Every interleaving of acquires, blocked waiters, cancellations, releases and
      evictions keeps the invariant. */
  lemma {:induction false} ExecutionsKeepInv(trace: seq<State>, i: nat, cap: nat, globalCap: nat)
    requires IsExecution(trace, cap, globalCap) && i < |trace| && (cap >= 1 || globalCap <= 1)
    ensures Inv(trace[i], cap, globalCap)
  {
    if i == 0 {
      StartIsOk(cap, globalCap);
    } else {
      hide Inv, Next;
      ExecutionsKeepInv(trace, i - 1, cap, globalCap);
      assert Follows(trace[i - 1], trace[i - 1 + 1], cap);
      var step :| Next(trace[i - 1], step, trace[i], cap);
      StepKeepsInv(trace[i - 1], step, trace[i], cap, globalCap);
    }
  }

  lemma StartIsOk(cap: nat, globalCap: nat)
    ensures Inv(Start(globalCap), cap, globalCap)
  {
  }

  function HeldBy(s: State, agent: Agent): set<ConnId> {
    set c | c in s.conns && s.conns[c].holding && s.conns[c].agent == agent
  }

  /** No agent ever holds more than its cap, nobody more than the global cap. */
  lemma CapsAreKept(s: State, cap: nat, globalCap: nat, agent: Agent)
    requires Inv(s, cap, globalCap)
    ensures |HeldBy(s, agent)| <= cap
    ensures |s.conns| <= globalCap
  {
    forall c | c in HeldBy(s, agent) ensures agent in s.agents && c in Holders(s, s.agents[agent]) {
      assert Seated(s, c);
    }
    if agent in s.agents {
      assert Entry(s, cap, agent);
      SubsetSize(HeldBy(s, agent), Holders(s, s.agents[agent]));
    } else {
      assert HeldBy(s, agent) == {};
    }
  }

  // ---- Where the code falls short ------------------------------------------------------------

  /** The state after one agent has started to wait, with no permit per agent. */
  function WaitsAtZero(globalCap: nat, t: Time): State
    requires globalCap >= 1
  {
    State(globalCap - 1, map["a" := 0], map["a" := t], map[0 := 0], map[1 := Conn("a", 0, false)], 1)
  }

  lemma ZeroCapFirstStep(globalCap: nat)
    requires globalCap >= 1
    ensures Next(Start(globalCap), Acquire(1, "a", 0.0), WaitsAtZero(globalCap, 0.0), 0)
  {
    var s := Start(globalCap);
    assert |s.agents| == 0;
    assert Evicted(s, s, 0, 0.0);
    var l := Looked(s, "a", 0.0, 0);
    assert l.agents == map["a" := 0] && l.lastUsed == map["a" := 0.0] && l.free == map[0 := 0];
    assert Entered(l, 1, "a") == WaitsAtZero(globalCap, 0.0);
    assert Begins(s, s, WaitsAtZero(globalCap, 0.0), 1, "a", 0.0, 0);
  }

  lemma ZeroCapEviction(globalCap: nat) returns (e: State)
    requires globalCap >= 2
    ensures Evicted(WaitsAtZero(globalCap, 0.0), e, 0, 4000.0)
    ensures e == State(globalCap - 1, map[], map[], map[0 := 0], map[1 := Conn("a", 0, false)], 1)
  {
    var s1 := WaitsAtZero(globalCap, 0.0);
    assert Idle(s1, 0, "a") && Expired(s1, 4000.0, "a");
    e := State(globalCap - 1, map[], map[], map[0 := 0], map[1 := Conn("a", 0, false)], 1);
    assert |e.agents| == 0;
    assert s1.agents.Keys - e.agents.Keys == {"a"};
    assert s1.agents - {"a"} == map[] && s1.lastUsed - {"a"} == map[];
    assert e == Without(s1, {"a"});
  }

  /** With no permit per agent an hour later the waiter's entry is evicted. */
  lemma ZeroCapSecondStep(globalCap: nat) returns (s2: State)
    requires globalCap >= 2
    ensures Next(WaitsAtZero(globalCap, 0.0), Acquire(2, "b", 4000.0), s2, 0)
    ensures !Seats(s2)
  {
    hide Evicted, Seats;
    var s1 := WaitsAtZero(globalCap, 0.0);
    var e := ZeroCapEviction(globalCap);
    var l := Looked(e, "b", 4000.0, 0);
    assert l.agents == map["b" := 1] && 1 in l.free;
    s2 := Entered(l, 2, "b");
    assert Begins(s1, e, s2, 2, "b", 4000.0, 0);
    assert s2.conns[1] == Conn("a", 0, false);
    NotSeated(s2, 1);
  }

  lemma NotSeated(s: State, c: ConnId)
    requires c in s.conns && s.conns[c].agent !in s.agents
    ensures !Seats(s)
  {
    assert !Seated(s, c);
  }

  ghost predicate AlwaysOk(cap: nat, globalCap: nat) {
    forall trace, i: nat :: IsExecution(trace, cap, globalCap) && i < |trace| ==> Inv(trace[i], cap, globalCap)
  }

  /** The promise that a holder or waiter keeps its entry is kept in every execution
      exactly when the per-agent cap is positive (or only one connection can exist). */
  lemma AlwaysOkIff(cap: nat, globalCap: nat)
    ensures AlwaysOk(cap, globalCap) <==> cap >= 1 || globalCap <= 1
  {
    hide Inv, Next;
    if cap >= 1 || globalCap <= 1 {
      forall trace, i: nat | IsExecution(trace, cap, globalCap) && i < |trace|
        ensures Inv(trace[i], cap, globalCap)
      {
        ExecutionsKeepInv(trace, i, cap, globalCap);
      }
    } else {
      ZeroCapFirstStep(globalCap);
      var s2 := ZeroCapSecondStep(globalCap);
      var trace := [Start(globalCap), WaitsAtZero(globalCap, 0.0), s2];
      assert Follows(trace[0], trace[1], cap) && Follows(trace[1], trace[2], cap);
      assert IsExecution(trace, cap, globalCap);
      InvHasSeats(s2, cap, globalCap);
      assert !Inv(trace[2], cap, globalCap);
    }
  }

  lemma InvHasSeats(s: State, cap: nat, globalCap: nat)
    ensures Inv(s, cap, globalCap) ==> Seats(s)
  {
  }

  /** The bound on entries is not enforced: while the least recently used entry is in
      use and nothing idle has expired, eviction removes nothing, whatever else is
      idle, and a new agent makes the table one larger. */
  lemma BoundIsNotEnforced(s: State, e: State, cap: nat, now: Time, agent: Agent)
    requires s.agents.Keys == s.lastUsed.Keys && |s.agents| >= 256 && agent !in s.agents
    requires exists o :: Oldest(s, o)
    requires forall o :: Oldest(s, o) ==> !Idle(s, cap, o)
    requires forall a :: !Stale(s, cap, now, a)
    requires Evicted(s, e, cap, now)
    ensures e == s
    ensures |Looked(e, agent, now, cap).agents| == |s.agents| + 1
  {
    hide Evicted;
    forall a | a in s.agents ensures a in e.agents {
      NothingIdleIsOldest(s, e, cap, now, a);
    }
    EvictShape(s, e, cap, now);
    assert s.agents.Keys - e.agents.Keys == {};
    assert Without(s, {}) == s;
    var l := Looked(e, agent, now, cap);
    assert l.agents.Keys == s.agents.Keys + {agent};
    assert |l.agents.Keys| == |s.agents.Keys| + 1;
    assert |l.agents| == |l.agents.Keys| && |s.agents| == |s.agents.Keys|;
  }

  lemma NothingIdleIsOldest(s: State, e: State, cap: nat, now: Time, a: Agent)
    requires exists o :: Oldest(s, o)
    requires forall o :: Oldest(s, o) ==> !Idle(s, cap, o)
    requires forall b :: !Stale(s, cap, now, b)
    requires s.agents.Keys == s.lastUsed.Keys && Evicted(s, e, cap, now) && a in s.agents
    ensures a in e.agents
  {
    var o :| Oldest(s, o);
    assert o in e.agents && o in e.lastUsed;
    assert !Stale(s, cap, now, a);
    assert Oldest(s, a) ==> !Idle(s, cap, a);
  }

  // ---- Last use ------------------------------------------------------------------------------------

  /** The agent's entry is still the one it was. */
  ghost predicate SameEntry(s: State, s1: State, a: Agent) {
    && a in s.agents && a in s1.agents && s1.agents[a] == s.agents[a]
    && a in s.lastUsed && a in s1.lastUsed && s1.lastUsed[a] == s.lastUsed[a]
  }

  /** The step's own agent: of the acquire, or of the connection released. */
  function UserOf(s: State, step: Step): set<Agent> {
    match step
    case Acquire(_, agent, _) => {agent}
    case Release(c, _) => if c in s.conns then {s.conns[c].agent} else {}
    case _ => {}
  }

  lemma AcquireNotes(s: State, e: State, s1: State, c: ConnId, agent: Agent, now: Time, cap: nat)
    requires s.globalFree > 0 && Begins(s, e, s1, c, agent, now, cap) && s.agents.Keys == s.lastUsed.Keys
    ensures agent in s1.lastUsed && s1.lastUsed[agent] == now
    ensures forall a :: a in s1.agents && a != agent ==> SameEntry(s, s1, a)
  {
    hide Evicted;
    EvictShape(s, e, cap, now);
  }

  lemma ReleaseNotes(s: State, s1: State, c: ConnId, now: Time, cap: nat)
    requires c in s.conns && Released(s, s1, c, now) && s.agents.Keys == s.lastUsed.Keys
    requires s.conns[c].agent in s.agents ==> s.agents[s.conns[c].agent] in s.free
    ensures var a := s.conns[c].agent; a in s1.lastUsed ==> s1.lastUsed[a] == now
    ensures forall a :: a in s1.agents && a != s.conns[c].agent ==> SameEntry(s, s1, a)
  {
    hide Waiting;
  }

  /** An acquire notes its time of use for its own agent, and a release for the agent of the
      connection; every other entry that is there afterwards was there before, with its time
      of use. */
  lemma UseIsNoted(s: State, step: Step, s1: State, cap: nat, globalCap: nat)
    requires Inv(s, cap, globalCap) && Next(s, step, s1, cap)
    ensures step.Acquire? ==> step.agent in s1.lastUsed && s1.lastUsed[step.agent] == step.now
    ensures step.Release? ==>
      var a := s.conns[step.conn].agent; a in s1.lastUsed ==> s1.lastUsed[a] == step.now
    ensures forall a :: a in s1.agents && a !in UserOf(s, step) ==> SameEntry(s, s1, a)
  {
    hide Begins, Released, Counts, Distinct;
    match step
    case Acquire(c, agent, now) =>
      var e :| Begins(s, e, s1, c, agent, now, cap);
      AcquireNotes(s, e, s1, c, agent, now, cap);
    case Release(c, now) =>
      assert Seated(s, c);
      ReleaseNotes(s, s1, c, now, cap);
    case _ =>
  }

  lemma FewerWithout(s: State, e: State, a: Agent)
    requires e.agents.Keys <= s.agents.Keys && a in s.agents
    ensures a !in e.agents ==> |e.agents| < |s.agents|
  {
    if a !in e.agents {
      SubsetSize(e.agents.Keys, s.agents.Keys - {a});
      assert |s.agents.Keys - {a}| == |s.agents.Keys| - 1;
      assert |e.agents| == |e.agents.Keys| && |s.agents| == |s.agents.Keys|;
    }
  }

  /** An entry used within the last hour stays while there are fewer than 256, and one in use
      stays in any case. */
  lemma StaysWithinTheHour(s: State, e: State, cap: nat, now: Time, a: Agent)
    requires Evicted(s, e, cap, now) && a in s.agents
    requires !Idle(s, cap, a) || (a in s.lastUsed && now - s.lastUsed[a] <= 3600.0 && |s.agents| < 256)
    ensures a in e.agents && e.agents[a] == s.agents[a]
  {
    FewerWithout(s, e, a);
  }
}
