/** The cool-downs of failing runs over whole histories of passes, against what the
    replies alone say. */
module ReconcileHistory {
  import opened Reconcile
  import opened ReconcileRaises

  /** One pass: the run table as it is by then, whoever wrote it, and the turn's inputs. */
  datatype PassInput = PassInput(table: seq<Run>, turn: TurnInput)

  datatype Maps = Maps(failures: map<RunId, nat>, nextAt: map<RunId, Time>)

  function Init(h: seq<PassInput>): seq<PassInput>
    requires h != []
  {
    h[..|h| - 1]
  }

  function Last(h: seq<PassInput>): PassInput
    requires h != []
  {
    h[|h| - 1]
  }

  /** The two dictionaries after a history, from empty. */
  function MapsAfter(h: seq<PassInput>, base: Time): Maps {
    if h == [] then Maps(map[], map[])
    else
      var m, p := MapsAfter(Init(h), base), Last(h);
      var l := AfterTurn(Loop(p.table, m.failures, m.nextAt), p.turn, base);
      Maps(l.failures, l.nextAt)
  }

  // ---- The replies alone --------------------------------------------------------------------

  /** Service errors since the run's last good reply, and the time of the last of them. */
  datatype Streak = Streak(count: nat, last: Time)

  predicate Waiting(st: Streak, base: Time, now: Time) {
    now < if st.count > 0 then st.last + Backoff(base, st.count) else 0.0
  }

  /** This row's poll raises in this pass. */
  ghost predicate StopsAt(h: seq<PassInput>, p: PassInput, base: Time, k: nat)
    decreases |h|, 1
  {
    && k < |p.table| && Active(p.table[k])
    && !Waiting(StreakOf(h, p.table[k].id, base), base, p.turn.now)
    && ReplyFor(p.turn.replies, p.table[k].id).Raised?
  }

  /** The run is polled in this pass: the supervisor answered, the run is active and due,
      and no earlier row's poll raised. */
  ghost predicate IsPolled(h: seq<PassInput>, p: PassInput, base: Time, id: RunId)
    decreases |h|, 2
  {
    && p.turn.status.Some?
    && !Waiting(StreakOf(h, id, base), base, p.turn.now)
    && exists k :: 0 <= k < |p.table| && p.table[k].id == id && Active(p.table[k])
                && forall j :: 0 <= j < k ==> !StopsAt(h, p, base, j)
  }

  ghost function StreakOf(h: seq<PassInput>, id: RunId, base: Time): Streak
    decreases |h|, 0
  {
    if h == [] then Streak(0, 0.0)
    else
      var before := StreakOf(Init(h), id, base);
      if !IsPolled(Init(h), Last(h), base, id) then before
      else
        match ReplyFor(Last(h).turn.replies, id)
        case Job(_, _) => Streak(0, 0.0)
        case ServiceError(at) => Streak(before.count + 1, at)
        case Raised => before
  }

  // ---- One pass -----------------------------------------------------------------------------

  /** Among the first `i` rows the run is polled. */
  ghost predicate PolledBy(start: Pass, i: nat, inp: Inputs, id: RunId)
    requires i <= |start.table|
  {
    exists k :: 0 <= k < i && PolledAt(start, k, inp, id)
  }

  ghost predicate PolledAt(start: Pass, k: nat, inp: Inputs, id: RunId)
    requires k < |start.table|
  {
    && start.table[k].id == id && Active(start.table[k])
    && !Cooling(start.nextAt, id, inp.now)
    && forall j :: 0 <= j < k ==> !Raises(start, j, inp)
  }

  /** The run's entries after being polled, or not. */
  ghost predicate EntriesAfter(start: Pass, p: Pass, inp: Inputs, id: RunId, polled: bool) {
    if !polled || ReplyFor(inp.replies, id).Raised? then SameEntries(start, p, id)
    else
      match ReplyFor(inp.replies, id)
      case Job(_, _) => id !in p.failures && id !in p.nextAt
      case ServiceError(at) =>
        var n := (if id in start.failures then start.failures[id] else 0) + 1;
        id in p.failures && id in p.nextAt && p.failures[id] == n && p.nextAt[id] == at + Backoff(inp.base, n)
      case Raised => true
  }

  lemma OneEntries(start: Pass, p: Pass, i: nat, inp: Inputs)
    requires i < |p.table| && SameEntries(start, p, p.table[i].id)
    ensures EntriesAfter(start, One(p, i, inp), inp, p.table[i].id, !Cooling(start.nextAt, p.table[i].id, inp.now))
  {
    hide Backoff, CallsFor, Refreshed;
  }

  lemma EntriesOfOthers(start: Pass, p: Pass, q: Pass, inp: Inputs, id: RunId, polled: bool)
    requires EntriesAfter(start, p, inp, id, polled) && SameEntries(p, q, id)
    ensures EntriesAfter(start, q, inp, id, polled)
  {
    hide Backoff;
  }

  lemma PolledStep(start: Pass, i: nat, inp: Inputs, id: RunId)
    requires i < |start.table|
    ensures PolledBy(start, i + 1, inp, id) <==> PolledBy(start, i, inp, id) || PolledAt(start, i, inp, id)
  {
    hide PolledAt;
  }

  lemma PolledIsSeen(start: Pass, i: nat, inp: Inputs, id: RunId)
    requires i <= |start.table| && PolledBy(start, i, inp, id)
    ensures Seen(start.table, i, id)
  {
  }

  lemma {:induction false} UptoEntries(start: Pass, i: nat, inp: Inputs, id: RunId)
    requires Distinct(start.table) && Fresh(start) && i <= |start.table|
    ensures EntriesAfter(start, Upto(start, i, inp), inp, id, PolledBy(start, i, inp, id))
  {
    hide Upto, One, Seen, PolledBy, EntriesAfter, Raises;
    if i == 0 {
      UptoNothing(start, inp);
      NothingPolled(start, inp, id);
    } else {
      var p, row := Upto(start, i - 1, inp), start.table[i - 1];
      UptoEntries(start, i - 1, inp, id);
      UptoStep(start, i - 1, inp);
      RowsAhead(start, i - 1, inp);
      PolledStep(start, i - 1, inp, id);
      UptoRaisesIff(start, i - 1, inp);
      if !p.raised && Active(row) {
        if row.id == id {
          NotYetSeen(start.table, i - 1);
          if PolledBy(start, i - 1, inp, id) {
            PolledIsSeen(start, i - 1, inp, id);
          }
          EntriesAhead(start, i - 1, inp, id);
          OneEntries(start, p, i - 1, inp);
        } else {
          OneKeepsOthers(p, i - 1, inp, id);
          EntriesOfOthers(start, p, One(p, i - 1, inp), inp, id, PolledBy(start, i - 1, inp, id));
        }
      }
    }
  }

  lemma NothingPolled(start: Pass, inp: Inputs, id: RunId)
    ensures !PolledBy(start, 0, inp, id) && EntriesAfter(start, start, inp, id, false)
  {
  }

  // ---- Whole histories ------------------------------------------------------------------------

  ghost predicate WellFormed(h: seq<PassInput>) {
    forall i :: 0 <= i < |h| ==> Distinct(h[i].table)
  }

  /** The dictionaries hold a run exactly while it has failed since its last good reply:
      how often, and until when it waits. */
  ghost predicate Matches(m: Maps, st: Streak, id: RunId, base: Time) {
    && (id in m.failures <==> st.count > 0) && (id in m.nextAt <==> st.count > 0)
    && (st.count > 0 ==> m.failures[id] == st.count && m.nextAt[id] == st.last + Backoff(base, st.count))
  }

  lemma WaitingIsCooling(m: Maps, st: Streak, id: RunId, base: Time, now: Time)
    requires Matches(m, st, id, base)
    ensures Cooling(m.nextAt, id, now) <==> Waiting(st, base, now)
  {
    hide Backoff;
  }

  lemma SamePolled(h: seq<PassInput>, p: PassInput, m: Maps, base: Time, id: RunId)
    requires forall other :: Matches(m, StreakOf(h, other, base), other, base)
    requires p.turn.status.Some?
    ensures var inp := Inputs(p.turn.now, base, p.turn.status.value, p.turn.replies);
            PolledBy(Begin(p.table, m.failures, m.nextAt), |p.table|, inp, id) <==> IsPolled(h, p, base, id)
  {
    hide StreakOf, Matches, Cooling, Waiting;
    var inp := Inputs(p.turn.now, base, p.turn.status.value, p.turn.replies);
    var start := Begin(p.table, m.failures, m.nextAt);
    forall other ensures Cooling(m.nextAt, other, inp.now) <==> Waiting(StreakOf(h, other, base), base, inp.now) {
      WaitingIsCooling(m, StreakOf(h, other, base), other, base, inp.now);
    }
    forall k: nat ensures Raises(start, k, inp) <==> StopsAt(h, p, base, k) {
    }
    if IsPolled(h, p, base, id) {
      var k :| 0 <= k < |p.table| && p.table[k].id == id && Active(p.table[k])
               && forall j :: 0 <= j < k ==> !StopsAt(h, p, base, j);
      assert PolledAt(start, k, inp, id);
    }
  }

  lemma MatchesStep(m: Maps, q: Maps, start: Pass, p: Pass, inp: Inputs, st: Streak, id: RunId, polled: bool)
    requires start.failures == m.failures && start.nextAt == m.nextAt
    requires p.failures == q.failures && p.nextAt == q.nextAt
    requires Matches(m, st, id, inp.base) && EntriesAfter(start, p, inp, id, polled)
    ensures Matches(q, if !polled then st
                       else match ReplyFor(inp.replies, id)
                            case Job(_, _) => Streak(0, 0.0)
                            case ServiceError(at) => Streak(st.count + 1, at)
                            case Raised => st, id, inp.base)
  {
    hide Backoff;
  }

  /** For every history of passes, over tables that anyone may change in between, with any
      replies and any failures of the supervisor: a run's failure count is the number of
      service errors since its last good reply, and its next attempt is the time of the
      last of them plus the wait for that count. */
  lemma {:induction false} MapsAreStreaks(h: seq<PassInput>, base: Time)
    requires WellFormed(h)
    ensures forall id :: Matches(MapsAfter(h, base), StreakOf(h, id, base), id, base)
    ensures MapsAfter(h, base).failures.Keys == MapsAfter(h, base).nextAt.Keys
  {
    hide Backoff, IsPolled, Upto, PolledBy, EntriesAfter;
    if h != [] {
      MapsAreStreaks(Init(h), base);
      var m, p := MapsAfter(Init(h), base), Last(h);
      forall id ensures Matches(MapsAfter(h, base), StreakOf(h, id, base), id, base) {
        if p.turn.status.Some? {
          var inp := Inputs(p.turn.now, base, p.turn.status.value, p.turn.replies);
          var start := Begin(p.table, m.failures, m.nextAt);
          UptoEntries(start, |p.table|, inp, id);
          SamePolled(Init(h), p, m, base, id);
          MatchesStep(m, MapsAfter(h, base), start, FullPass(start, inp), inp, StreakOf(Init(h), id, base), id,
                      IsPolled(Init(h), p, base, id));
        } else {
          NotPolledUnanswered(Init(h), p, base, id);
        }
      }
      KeysAgree(MapsAfter(h, base), h, base);
    }
  }

  lemma NotPolledUnanswered(h: seq<PassInput>, p: PassInput, base: Time, id: RunId)
    requires p.turn.status.None?
    ensures !IsPolled(h, p, base, id)
  {
  }

  lemma KeysAgree(m: Maps, h: seq<PassInput>, base: Time)
    requires forall id :: Matches(m, StreakOf(h, id, base), id, base)
    ensures m.failures.Keys == m.nextAt.Keys
  {
    hide StreakOf, Backoff;
    forall id ensures id in m.failures <==> id in m.nextAt {
      assert Matches(m, StreakOf(h, id, base), id, base);
    }
  }

  // ---- What that means for the waits --------------------------------------------------------------

  /** While a run waits, no pass touches its entries. */
  lemma WaitingRunIsLeftAlone(h: seq<PassInput>, base: Time, id: RunId)
    requires WellFormed(h) && h != []
    requires id in MapsAfter(Init(h), base).nextAt && Last(h).turn.now < MapsAfter(Init(h), base).nextAt[id]
    ensures var m, q := MapsAfter(Init(h), base), MapsAfter(h, base);
            && id in q.failures && id in q.nextAt && id in m.failures
            && q.failures[id] == m.failures[id] && q.nextAt[id] == m.nextAt[id]
  {
    hide Backoff, MapsAfter;
    MapsAreStreaks(Init(h), base);
    MapsAreStreaks(h, base);
    var m, st := MapsAfter(Init(h), base), StreakOf(Init(h), id, base);
    assert Matches(m, st, id, base);
    WaitingIsCooling(m, st, id, base, Last(h).turn.now);
    assert !IsPolled(Init(h), Last(h), base, id);
    assert Matches(MapsAfter(h, base), StreakOf(h, id, base), id, base);
  }

  /** The run has a good reply in the last pass. */
  ghost predicate GoodReply(h: seq<PassInput>, base: Time, id: RunId)
    requires h != []
  {
    IsPolled(Init(h), Last(h), base, id) && ReplyFor(Last(h).turn.replies, id).Job?
  }

  /** No good reply in passes `i` to the end. */
  ghost predicate NoneGoodFrom(h: seq<PassInput>, i: nat, base: Time, id: RunId)
    requires i <= |h|
  {
    forall m: nat :: i < m <= |h| ==> !GoodReply(h[..m], base, id)
  }

  lemma {:induction false} CountGrows(h: seq<PassInput>, i: nat, base: Time, id: RunId)
    requires i <= |h| && NoneGoodFrom(h, i, base, id)
    ensures StreakOf(h[..i], id, base).count <= StreakOf(h, id, base).count
    decreases |h|
  {
    hide IsPolled, Backoff;
    if i == |h| {
      assert h[..i] == h;
    } else {
      assert h[..|h|] == h;
      assert !GoodReply(h[..|h|], base, id);
      forall m: nat | i < m <= |Init(h)| ensures !GoodReply(Init(h)[..m], base, id) {
        assert Init(h)[..m] == h[..m];
      }
      assert Init(h)[..i] == h[..i];
      CountGrows(Init(h), i, base, id);
    }
  }

  /** How long the run was told to wait by the last error: from that error to its next
      attempt. */
  ghost function WaitOf(h: seq<PassInput>, id: RunId, base: Time): Time {
    Backoff(base, StreakOf(h, id, base).count)
  }

  /** Until a good reply a failing run's waits never shrink, over any passes between, and
      none exceeds 300 seconds. */
  lemma WaitsNeverShrink(h: seq<PassInput>, i: nat, base: Time, id: RunId)
    requires WellFormed(h) && base > 0.0 && i <= |h| && NoneGoodFrom(h, i, base, id)
    requires id in MapsAfter(h[..i], base).nextAt
    ensures id in MapsAfter(h, base).nextAt
    ensures MapsAfter(h[..i], base).nextAt[id] == StreakOf(h[..i], id, base).last + WaitOf(h[..i], id, base)
    ensures MapsAfter(h, base).nextAt[id] == StreakOf(h, id, base).last + WaitOf(h, id, base)
    ensures 0.0 < WaitOf(h[..i], id, base) <= WaitOf(h, id, base) <= BACKOFF_CAP
  {
    hide Backoff, MapsAfter, StreakOf;
    MapsAreStreaks(h[..i], base);
    MapsAreStreaks(h, base);
    assert Matches(MapsAfter(h[..i], base), StreakOf(h[..i], id, base), id, base);
    assert Matches(MapsAfter(h, base), StreakOf(h, id, base), id, base);
    CountGrows(h, i, base, id);
    BackoffGrows(base, StreakOf(h[..i], id, base).count, StreakOf(h, id, base).count);
  }
}
