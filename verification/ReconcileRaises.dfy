/** Polls that raise: when a reconciliation pass is lost, and what is lost with it. */
module ReconcileRaises {
  import opened Reconcile

  /** The poll of this row, if it comes to it, raises something other than the service's
      error; so does an HTTP failure, whose retries end in an exception of their own. */
  predicate Raises(start: Pass, k: nat, inp: Inputs) {
    && k < |start.table| && Active(start.table[k])
    && !Cooling(start.nextAt, start.table[k].id, inp.now)
    && ReplyFor(inp.replies, start.table[k].id).Raised?
  }

  /** What a pass keeps of a run it has not come to: its two entries. */
  ghost predicate SameEntries(a: Pass, b: Pass, id: RunId) {
    && (id in a.failures <==> id in b.failures) && (id in a.nextAt <==> id in b.nextAt)
    && (id in a.failures ==> a.failures[id] == b.failures[id])
    && (id in a.nextAt ==> a.nextAt[id] == b.nextAt[id])
  }

  lemma OneKeepsOthers(p: Pass, i: nat, inp: Inputs, id: RunId)
    requires i < |p.table| && p.table[i].id != id
    ensures SameEntries(p, One(p, i, inp), id)
  {
    hide Backoff, CallsFor, Refreshed;
  }

  lemma {:induction false} EntriesAhead(start: Pass, i: nat, inp: Inputs, id: RunId)
    requires i <= |start.table| && !Seen(start.table, i, id)
    ensures SameEntries(start, Upto(start, i, inp), id)
  {
    hide Upto, Seen, One;
    if i == 0 {
      UptoNothing(start, inp);
    } else {
      SeenStep(start.table, i - 1, id);
      EntriesAhead(start, i - 1, inp, id);
      UptoStep(start, i - 1, inp);
      RowsAhead(start, i - 1, inp);
      var p := Upto(start, i - 1, inp);
      if !p.raised && Active(start.table[i - 1]) {
        OneKeepsOthers(p, i - 1, inp, id);
      }
    }
  }

  lemma OneRaisesIff(p: Pass, i: nat, inp: Inputs)
    requires i < |p.table| && !p.raised
    ensures One(p, i, inp).raised
       <==> !Cooling(p.nextAt, p.table[i].id, inp.now) && ReplyFor(inp.replies, p.table[i].id).Raised?
    ensures One(p, i, inp).raised ==> One(p, i, inp) == p.(raised := true)
  {
  }

  lemma {:induction false} UptoRaisesIff(start: Pass, i: nat, inp: Inputs)
    requires Distinct(start.table) && !start.raised && i <= |start.table|
    ensures Upto(start, i, inp).raised <==> exists k :: 0 <= k < i && Raises(start, k, inp)
  {
    hide Upto, One, Seen;
    if i == 0 {
      UptoNothing(start, inp);
    } else {
      UptoRaisesIff(start, i - 1, inp);
      UptoStep(start, i - 1, inp);
      RowsAhead(start, i - 1, inp);
      var p, id := Upto(start, i - 1, inp), start.table[i - 1].id;
      if !p.raised && Active(start.table[i - 1]) {
        NotYetSeen(start.table, i - 1);
        EntriesAhead(start, i - 1, inp, id);
        OneRaisesIff(p, i - 1, inp);
        assert Raises(start, i - 1, inp) <==> One(p, i - 1, inp).raised;
      }
    }
  }

  /** A pass is lost if and only if the poll of some active run that is due raises. */
  lemma PassRaisesIff(start: Pass, inp: Inputs)
    requires Distinct(start.table) && Fresh(start)
    ensures FullPass(start, inp).raised <==> exists k :: 0 <= k < |start.table| && Raises(start, k, inp)
  {
    UptoRaisesIff(start, |start.table|, inp);
  }

  /** Then nothing of it is committed, also of the runs polled before; the calls made are
      those for rows before the first that raises, and no run from there on is polled. */
  lemma RaiseLosesThePass(start: Pass, inp: Inputs, k: nat)
    requires Distinct(start.table) && Fresh(start)
    requires Raises(start, k, inp) && forall j :: 0 <= j < k ==> !Raises(start, j, inp)
    ensures var p, before := FullPass(start, inp), Upto(start, k, inp);
            && p == before.(raised := true)
            && Committed(start, p) == start.table
            && (forall c :: c in p.calls ==> Wanted(start, k, before, inp.tracked, c))
            && (forall id :: !Seen(start.table, k, id) ==> SameEntries(start, p, id))
  {
    hide Upto, One, Seen, Wanted, CallsFor;
    var p, before := FullPass(start, inp), Upto(start, k, inp);
    UptoRaisesIff(start, k, inp);
    UptoStep(start, k, inp);
    RowsAhead(start, k, inp);
    NotYetSeen(start.table, k);
    EntriesAhead(start, k, inp, start.table[k].id);
    OneRaisesIff(before, k, inp);
    UptoRaised(start, k + 1, |start.table|, inp);
    forall c | c in p.calls ensures Wanted(start, k, before, inp.tracked, c) {
      CallsExactly(start, k, inp, c);
    }
    forall id | !Seen(start.table, k, id) ensures SameEntries(start, p, id) {
      EntriesAhead(start, k, inp, id);
    }
  }

  ghost predicate SameReplies(table: seq<Run>, i: nat, a: Inputs, b: Inputs) {
    && a.now == b.now && a.base == b.base && a.tracked == b.tracked
    && i <= |table|
    && forall j :: 0 <= j < i ==> ReplyFor(a.replies, table[j].id) == ReplyFor(b.replies, table[j].id)
  }

  lemma {:induction false} EarlierRepliesDecide(start: Pass, i: nat, a: Inputs, b: Inputs)
    requires i <= |start.table| && SameReplies(start.table, i, a, b)
    ensures Upto(start, i, a) == Upto(start, i, b)
  {
    hide Upto, CallsFor, Backoff, Refreshed;
    if i == 0 {
      UptoNothing(start, a);
      UptoNothing(start, b);
    } else {
      EarlierRepliesDecide(start, i - 1, a, b);
      UptoStep(start, i - 1, a);
      UptoStep(start, i - 1, b);
      RowsAhead(start, i - 1, a);
    }
  }

  /** Whatever the later runs' jobs would have said makes no difference. */
  lemma LaterRunsStarve(start: Pass, a: Inputs, b: Inputs, k: nat)
    requires Distinct(start.table) && Fresh(start) && Raises(start, k, a)
    requires SameReplies(start.table, k + 1, a, b)
    ensures FullPass(start, a) == FullPass(start, b)
  {
    hide Upto, Raises;
    assert Raises(start, k, b) by { RaisesToo(start, a, b, k); }
    EarlierRepliesDecide(start, k + 1, a, b);
    UptoRaisesIff(start, k + 1, a);
    UptoRaisesIff(start, k + 1, b);
    UptoRaised(start, k + 1, |start.table|, a);
    UptoRaised(start, k + 1, |start.table|, b);
  }

  lemma RaisesToo(start: Pass, a: Inputs, b: Inputs, k: nat)
    requires Raises(start, k, a) && SameReplies(start.table, k + 1, a, b)
    ensures Raises(start, k, b)
  {
  }

  // ---- For as long as it lasts ------------------------------------------------------------------

  /** A run whose polls raise is never given a time to wait until. */
  lemma {:induction false} RaisedGetsNoWait(start: Pass, i: nat, inp: Inputs, id: RunId)
    requires i <= |start.table| && ReplyFor(inp.replies, id).Raised? && id !in start.nextAt
    ensures id !in Upto(start, i, inp).nextAt
  {
    hide Upto, CallsFor, Backoff, Refreshed;
    if i == 0 {
      UptoNothing(start, inp);
    } else {
      RaisedGetsNoWait(start, i - 1, inp, id);
      UptoStep(start, i - 1, inp);
    }
  }

  /** One active run whose polls keep raising freezes the whole table: over any number of
      turns no status change of any run is committed, and the run stays due. */
  lemma {:induction false} OneBadRunFreezesTheTable(s: Loop, turns: seq<TurnInput>, base: Time, k: nat)
    requires Distinct(s.table) && k < |s.table| && Active(s.table[k]) && s.table[k].id !in s.nextAt
    requires forall i :: 0 <= i < |turns| ==>
      turns[i].now >= 0.0 && ReplyFor(turns[i].replies, s.table[k].id).Raised?
    ensures AfterTurns(s, turns, base).table == s.table
    ensures s.table[k].id !in AfterTurns(s, turns, base).nextAt
  {
    hide Upto;
    if turns != [] {
      var before, t, id := turns[..|turns| - 1], turns[|turns| - 1], s.table[k].id;
      OneBadRunFreezesTheTable(s, before, base, k);
      var l := AfterTurns(s, before, base);
      if t.status.Some? {
        var start, inp := Begin(l.table, l.failures, l.nextAt), Inputs(t.now, base, t.status.value, t.replies);
        assert Raises(start, k, inp);
        PassRaisesIff(start, inp);
        RaisedGetsNoWait(start, |start.table|, inp, id);
      }
    }
  }
}
