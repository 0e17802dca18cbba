/** A reconciliation pass in the terms of its inputs: every row, every call and what is
    committed, for any replies. */
module ReconcileExact {
  import opened RunStatus
  import opened Reconcile
  import opened ReconcileRaises

  predicate Polls(start: Pass, k: nat, inp: Inputs)
    requires k < |start.table|
  {
    var r := start.table[k];
    && (r.status == Queued || r.status == Running) && r.job.Some?
    && (if r.id in start.nextAt then start.nextAt[r.id] <= inp.now else 0.0 <= inp.now)
  }

  /** The job's answer about this row, if it is polled and answered. */
  predicate Answered(start: Pass, k: nat, inp: Inputs)
    requires k < |start.table|
  {
    Polls(start, k, inp) && start.table[k].id in inp.replies && inp.replies[start.table[k].id].Job?
  }

  /** The row after the pass: of a job's answer the known status and each signal it carries. */
  predicate IsAfter(start: Pass, k: nat, inp: Inputs, r: Run)
    requires k < |start.table|
  {
    var was := start.table[k];
    if !Answered(start, k, inp) then r == was
    else
      var reply := inp.replies[was.id];
      && r.id == was.id && r.job == was.job
      && (reply.status.Some? ==> r.status == reply.status.value)
      && (reply.status.None? ==> r.status == was.status)
      && (reply.signals.reward.Some? ==> r.signals.reward == reply.signals.reward)
      && (reply.signals.reward.None? ==> r.signals.reward == was.signals.reward)
      && (reply.signals.correct.Some? ==> r.signals.correct == reply.signals.correct)
      && (reply.signals.correct.None? ==> r.signals.correct == was.signals.correct)
      && (reply.signals.checkpoint.Some? ==> r.signals.checkpoint == reply.signals.checkpoint)
      && (reply.signals.checkpoint.None? ==> r.signals.checkpoint == was.signals.checkpoint)
  }

  lemma ActivePolls(start: Pass, k: nat, inp: Inputs)
    requires k < |start.table|
    ensures Polls(start, k, inp) <==>
      Active(start.table[k]) && !Cooling(start.nextAt, start.table[k].id, inp.now)
  {
  }

  lemma StepIsAfter(start: Pass, p: Pass, i: nat, inp: Inputs)
    requires i < |p.table| == |start.table| && p.table[i] == start.table[i] && Active(start.table[i])
    requires SameEntries(start, p, start.table[i].id) && !One(p, i, inp).raised
    ensures IsAfter(start, i, inp, One(p, i, inp).table[i])
  {
    hide CallsFor, Backoff;
    ActivePolls(start, i, inp);
  }

  lemma {:induction false} RowsAreAfter(start: Pass, i: nat, inp: Inputs)
    requires Distinct(start.table) && !start.raised && i <= |start.table| && !Upto(start, i, inp).raised
    ensures forall k :: 0 <= k < i ==> IsAfter(start, k, inp, Upto(start, i, inp).table[k])
  {
    hide Upto, One, IsAfter, Seen;
    if i > 0 {
      var p := Upto(start, i - 1, inp);
      UptoStep(start, i - 1, inp);
      RowsAhead(start, i - 1, inp);
      RowsAreAfter(start, i - 1, inp);
      if Active(start.table[i - 1]) {
        NotYetSeen(start.table, i - 1);
        EntriesAhead(start, i - 1, inp, start.table[i - 1].id);
        OneRow(p, i - 1, inp);
        StepIsAfter(start, p, i - 1, inp);
      } else {
        InactiveIsAfter(start, i - 1, inp);
      }
    }
  }

  lemma InactiveIsAfter(start: Pass, k: nat, inp: Inputs)
    requires k < |start.table| && !Active(start.table[k])
    ensures IsAfter(start, k, inp, start.table[k])
  {
  }

  /** The supervisor is to forget an ended run it tracks, and to track, under its own job,
      a running one it does not. */
  predicate CallFor(r: Run, tracked: set<RunId>, c: Call) {
    || (c == Untrack(r.id) && r.id in tracked && r.status in {Succeeded, Failed, Cancelled})
    || (c == Track(r.id, r.job) && r.id !in tracked && r.status == Running)
  }

  lemma CallsForIff(r: Run, tracked: set<RunId>, c: Call)
    ensures c in CallsFor(r, tracked) <==> CallFor(r, tracked, c)
  {
  }

  /** Some job answered with a status that is not the row's. */
  ghost predicate StatusChanges(start: Pass, inp: Inputs) {
    exists k: nat :: k < |start.table| && Answered(start, k, inp)
      && inp.replies[start.table[k].id].status.Some?
      && inp.replies[start.table[k].id].status.value != start.table[k].status
  }

  ghost predicate CalledFor(start: Pass, p: Pass, inp: Inputs, c: Call)
    requires |start.table| == |p.table|
  {
    exists k :: 0 <= k < |p.table| && (start.table[k].status == Queued || start.table[k].status == Running)
             && start.table[k].job.Some? && CallFor(p.table[k], inp.tracked, c)
  }

  /** Whatever the replies: unless the pass raises, each row is as its job's answer says, the
      calls are those the rows then ask for, and the rows are committed, signals and all,
      exactly if some job's status differs from its row's. */
  lemma PassExactly(start: Pass, inp: Inputs)
    requires Distinct(start.table) && Fresh(start) && !FullPass(start, inp).raised
    ensures var p := FullPass(start, inp);
            && (forall k: nat :: k < |p.table| ==> IsAfter(start, k, inp, p.table[k]))
            && (forall c :: c in p.calls <==> CalledFor(start, p, inp, c))
            && Committed(start, p) == if StatusChanges(start, inp) then p.table else start.table
  {
    hide Upto, IsAfter, CallsFor, CallFor;
    var p := FullPass(start, inp);
    RowsAreAfter(start, |start.table|, inp);
    forall c ensures c in p.calls <==> CalledFor(start, p, inp, c) {
      CallsExactly(start, |start.table|, inp, c);
      WantedIff(start, p, inp, c);
    }
    SignalsNeedAStatusChange(start, inp);
    ChangesIff(start, p, inp);
  }

  lemma WantedIff(start: Pass, p: Pass, inp: Inputs, c: Call)
    requires |start.table| == |p.table|
    ensures Wanted(start, |start.table|, p, inp.tracked, c) <==> CalledFor(start, p, inp, c)
  {
    hide CallsFor, CallFor;
    forall k | 0 <= k < |p.table| ensures c in CallsFor(p.table[k], inp.tracked) <==> CallFor(p.table[k], inp.tracked, c) {
      CallsForIff(p.table[k], inp.tracked, c);
    }
  }

  lemma ChangesIff(start: Pass, p: Pass, inp: Inputs)
    requires |p.table| == |start.table|
    requires forall k: nat :: k < |p.table| ==> IsAfter(start, k, inp, p.table[k])
    ensures SomeStatusChanged(start.table, p.table) <==> StatusChanges(start, inp)
  {
    if SomeStatusChanged(start.table, p.table) {
      var k :| 0 <= k < |start.table| && start.table[k].status != p.table[k].status;
      assert IsAfter(start, k, inp, p.table[k]);
    }
    if StatusChanges(start, inp) {
      var k: nat :| k < |start.table| && Answered(start, k, inp)
        && inp.replies[start.table[k].id].status.Some?
        && inp.replies[start.table[k].id].status.value != start.table[k].status;
      assert IsAfter(start, k, inp, p.table[k]);
    }
  }

  /** And it raises exactly if an active run that is due gets no reply, or one that is
      neither a job nor the service's error. */
  lemma RaisesExactly(start: Pass, inp: Inputs)
    requires Distinct(start.table) && Fresh(start)
    ensures FullPass(start, inp).raised <==>
      exists k: nat :: k < |start.table| && Polls(start, k, inp)
        && (start.table[k].id in inp.replies ==> inp.replies[start.table[k].id].Raised?)
  {
    hide Upto;
    PassRaisesIff(start, inp);
    forall k: nat | k < |start.table|
      ensures Raises(start, k, inp) <==>
        Polls(start, k, inp) && (start.table[k].id in inp.replies ==> inp.replies[start.table[k].id].Raised?)
    {
      ActivePolls(start, k, inp);
    }
  }

  // ---- Waits -----------------------------------------------------------------------------------

  function Two(n: nat): nat {
    if n == 0 then 1 else 2 * Two(n - 1)
  }

  lemma {:induction false} DoubledIs(base: Time, n: nat)
    ensures Doubled(base, n) == base * Two(n) as real
  {
    if n > 0 {
      DoubledIs(base, n - 1);
      assert Two(n) as real == 2.0 * Two(n - 1) as real;
    }
  }

  /** The wait after `n` failures is the interval times two to the `n`, at most five minutes. */
  lemma BackoffIs(base: Time, n: nat)
    ensures Backoff(base, n) <= 300.0 && Backoff(base, n) <= base * Two(n) as real
    ensures Backoff(base, n) == 300.0 || Backoff(base, n) == base * Two(n) as real
  {
    DoubledIs(base, n);
  }
}
