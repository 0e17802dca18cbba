/** Callbacks of one nonce at the same time, in several workers: each selects the pending
    row, later writes `used_at` by the row's id, and commits after the token exchange. The
    select holds nothing; one worker writes at a time. */
module OAuthRaces {
  import opened Text

  type CallbackId = nat

  datatype Phase = Found | Missed | Wrote | Committed | GaveUp

  /** `used` is the committed `used_at`; `writer` holds the write lock. */
  datatype State = State(used: bool, writer: Option<CallbackId>, phase: map<CallbackId, Phase>)

  const START := State(false, None, map[])

  datatype Step =
    | Select(c: CallbackId, usable: bool)  // finds the row if unused and otherwise usable
    | Write(c: CallbackId)                 // the update, flushed
    | Commit(c: CallbackId)                // after the exchange
    | GiveUp(c: CallbackId)                // mismatch, failed exchange, or lock timeout

  predicate In(s: State, c: CallbackId, p: Phase) {
    c in s.phase && s.phase[c] == p
  }

  /** `guarded`: the update itself asks that the row be still unused, and fails otherwise. */
  predicate Enabled(s: State, step: Step, guarded: bool) {
    match step
    case Select(c, _) => c !in s.phase
    case Write(c) => In(s, c, Found) && s.writer.None? && (guarded ==> !s.used)
    case Commit(c) => In(s, c, Wrote)
    case GiveUp(c) => In(s, c, Found) || In(s, c, Wrote)
  }

  function Next(s: State, step: Step): State {
    match step
    case Select(c, usable) => s.(phase := s.phase[c := if usable && !s.used then Found else Missed])
    case Write(c) => s.(phase := s.phase[c := Wrote], writer := Some(c))
    case Commit(c) => State(true, None, s.phase[c := Committed])
    case GiveUp(c) => s.(phase := s.phase[c := GaveUp], writer := if s.writer == Some(c) then None else s.writer)
  }

  predicate Runs(s: State, steps: seq<Step>, guarded: bool)
    decreases |steps|
  {
    steps == [] || (Enabled(s, steps[0], guarded) && Runs(Next(s, steps[0]), steps[1..], guarded))
  }

  function After(s: State, steps: seq<Step>): State
    decreases |steps|
  {
    if steps == [] then s else After(Next(s, steps[0]), steps[1..])
  }

  ghost predicate Inv(s: State) {
    && (forall c: CallbackId :: In(s, c, Wrote) <==> s.writer == Some(c))
    && (s.used <==> exists c: CallbackId :: In(s, c, Committed))
  }

  lemma OthersStay(s: State, step: Step, c: CallbackId, p: Phase)
    requires c != step.c
    ensures In(Next(s, step), c, p) <==> In(s, c, p)
  {
  }

  lemma CommittedStays(s: State, step: Step, guarded: bool, c: CallbackId)
    requires Enabled(s, step, guarded)
    ensures In(Next(s, step), c, Committed) <==> In(s, c, Committed) || step == Commit(c)
  {
  }

  lemma WriterStays(s: State, step: Step, guarded: bool)
    requires Enabled(s, step, guarded) && forall c: CallbackId :: In(s, c, Wrote) <==> s.writer == Some(c)
    ensures forall c: CallbackId :: In(Next(s, step), c, Wrote) <==> Next(s, step).writer == Some(c)
  {
    assert In(s, step.c, Wrote) <==> s.writer == Some(step.c);
    forall c: CallbackId ensures In(Next(s, step), c, Wrote) <==> Next(s, step).writer == Some(c) {
      assert In(s, c, Wrote) <==> s.writer == Some(c);
      if c != step.c {
        OthersStay(s, step, c, Wrote);
      }
    }
  }

  lemma StepKeepsInv(s: State, step: Step, guarded: bool)
    requires Inv(s) && Enabled(s, step, guarded)
    ensures Inv(Next(s, step))
  {
    hide In;
    WriterStays(s, step, guarded);
    forall c: CallbackId ensures In(Next(s, step), c, Committed) <==> In(s, c, Committed) || step == Commit(c) {
      CommittedStays(s, step, guarded, c);
    }
    if step.Commit? {
      assert In(Next(s, step), step.c, Committed);
    }
  }

  // ---- With the guard ---------------------------------------------------------------------

  ghost predicate AtMostOne(s: State) {
    forall c: CallbackId, d: CallbackId :: In(s, c, Committed) && In(s, d, Committed) ==> c == d
  }

  /** Nobody writes once somebody has committed. */
  ghost predicate Exclusive(s: State) {
    Inv(s) && AtMostOne(s) && (s.used ==> s.writer.None?)
  }

  lemma {:induction false} GuardedRunsCommitOnce(s: State, steps: seq<Step>)
    requires Exclusive(s) && Runs(s, steps, true)
    ensures AtMostOne(After(s, steps))
    decreases |steps|
  {
    if steps != [] {
      GuardedStep(s, steps[0]);
      GuardedRunsCommitOnce(Next(s, steps[0]), steps[1..]);
    }
  }

  lemma GuardedStep(s: State, step: Step)
    requires Exclusive(s) && Enabled(s, step, true)
    ensures Exclusive(Next(s, step))
  {
    StepKeepsInv(s, step, true);
    forall c: CallbackId ensures In(Next(s, step), c, Committed) <==> In(s, c, Committed) || step == Commit(c) {
      CommittedStays(s, step, true, c);
    }
    if step.Commit? {
      assert s.writer == Some(step.c) && !s.used;
      forall c: CallbackId ensures !In(s, c, Committed) {
      }
    }
  }

  // ---- Without it ----------------------------------------------------------------------------

  /** Two callbacks that both select before either commits, and both commit. */
  function Race(): seq<Step> {
    [Select(1, true), Select(2, true), Write(1), Commit(1), Write(2), Commit(2)]
  }

  lemma RaceCommitsTwice()
    ensures Runs(START, Race(), false)
    ensures In(After(START, Race()), 1, Committed) && In(After(START, Race()), 2, Committed)
  {
    var steps := Race();
    var s1 := Next(START, steps[0]);
    var s2 := Next(s1, steps[1]);
    var s3 := Next(s2, steps[2]);
    var s4 := Next(s3, steps[3]);
    var s5 := Next(s4, steps[4]);
    var s6 := Next(s5, steps[5]);
    assert s6.phase == map[1 := Committed, 2 := Committed];
    OneStep(s6, s5, steps[5], [], false);
    OneStep(s6, s4, steps[4], [steps[5]], false);
    OneStep(s6, s3, steps[3], [steps[4], steps[5]], false);
    OneStep(s6, s2, steps[2], [steps[3], steps[4], steps[5]], false);
    OneStep(s6, s1, steps[1], [steps[2], steps[3], steps[4], steps[5]], false);
    OneStep(s6, START, steps[0], [steps[1], steps[2], steps[3], steps[4], steps[5]], false);
    assert steps == [steps[0]] + [steps[1], steps[2], steps[3], steps[4], steps[5]];
  }

  lemma OneStep(end: State, s: State, step: Step, rest: seq<Step>, guarded: bool)
    requires Enabled(s, step, guarded) && Runs(Next(s, step), rest, guarded) && After(Next(s, step), rest) == end
    ensures Runs(s, [step] + rest, guarded) && After(s, [step] + rest) == end
  {
    assert ([step] + rest)[1..] == rest;
  }

  ghost predicate OnePerNonce(guarded: bool) {
    forall steps :: Runs(START, steps, guarded) ==> AtMostOne(After(START, steps))
  }

  /** At most one callback of a nonce commits in every interleaving if and only if the
      update asks that the row be still unused. */
  lemma OnePerNonceIff(guarded: bool)
    ensures OnePerNonce(guarded) <==> guarded
  {
    hide Runs, After;
    if guarded {
      forall steps | Runs(START, steps, guarded) ensures AtMostOne(After(START, steps)) {
        GuardedRunsCommitOnce(START, steps);
      }
    } else {
      RaceCommitsTwice();
      assert !AtMostOne(After(START, Race()));
    }
  }

  // ---- Exactly when a second callback commits ---------------------------------------------------

  ghost predicate CanStillCommit(s: State, d: CallbackId) {
    In(s, d, Found) || In(s, d, Wrote) || In(s, d, Committed)
  }

  lemma {:induction false} LateNeverCommits(s: State, steps: seq<Step>, d: CallbackId)
    requires s.used && !CanStillCommit(s, d) && Runs(s, steps, false)
    ensures !In(After(s, steps), d, Committed)
    decreases |steps|
  {
    if steps != [] {
      LateNeverCommits(Next(s, steps[0]), steps[1..], d);
    }
  }

  lemma EarlyCanCommit(s: State, d: CallbackId) returns (steps: seq<Step>)
    requires Inv(s) && CanStillCommit(s, d)
    ensures Runs(s, steps, false) && In(After(s, steps), d, Committed)
  {
    if In(s, d, Committed) {
      steps := [];
    } else if In(s, d, Wrote) {
      steps := [Commit(d)];
      OneStep(Next(s, Commit(d)), s, Commit(d), [], false);
      assert [Commit(d)] + [] == [Commit(d)];
    } else {
      var free := s;
      if s.writer.Some? {
        assert In(s, s.writer.value, Wrote);
        free := Next(s, GiveUp(s.writer.value));
      }
      var wrote := Next(free, Write(d));
      var end := Next(wrote, Commit(d));
      OneStep(end, wrote, Commit(d), [], false);
      assert [Commit(d)] + [] == [Commit(d)];
      OneStep(end, free, Write(d), [Commit(d)], false);
      steps := [Write(d)] + [Commit(d)];
      if s.writer.Some? {
        OneStep(end, s, GiveUp(s.writer.value), steps, false);
        steps := [GiveUp(s.writer.value)] + steps;
      }
    }
  }

  ghost predicate CommitsLater(s: State, d: CallbackId) {
    exists steps :: Runs(s, steps, false) && In(After(s, steps), d, Committed)
  }

  /** As the code stands: once one callback of a nonce has committed, another one can
      commit too if and only if it had found the row before and has not given up. */
  lemma SecondCommitIff(s: State, c: CallbackId, d: CallbackId)
    requires Inv(s) && In(s, c, Committed) && c != d
    ensures CommitsLater(s, d) <==> CanStillCommit(s, d)
  {
    hide Runs, After;
    if CanStillCommit(s, d) {
      var steps := EarlyCanCommit(s, d);
    } else {
      forall steps | Runs(s, steps, false) ensures !In(After(s, steps), d, Committed) {
        LateNeverCommits(s, steps, d);
      }
    }
  }
}
