/** The supervisor's polling tasks: what one applied poll writes and announces.
    The database is a run table and a metric table with a unique key; a
    transaction is one all-or-nothing step. */
module Ingestion {
  import opened Text

  type I64 = x: int | -0x8000_0000_0000_0000 <= x < 0x8000_0000_0000_0000

  /** Two's complement wrap-around of release builds. */
  function Wrap64(x: int): I64 {
    (x + 0x8000_0000_0000_0000) % 0x1_0000_0000_0000_0000 - 0x8000_0000_0000_0000
  }

  type RunId = string

  datatype Key = Key(run: RunId, step: I64, name: string)
  type Table = map<Key, real>

  datatype RunRow = RunRow(status: string, gpuSeconds: real, cost: real,
                           startedAt: Option<string>, finishedAt: Option<string>)

  datatype Db = Db(runs: map<RunId, RunRow>, metrics: Table)

  type Pairs = seq<(string, real)>

  ghost predicate DistinctNames(entries: seq<(string, Option<real>)>) {
    forall i, j :: 0 <= i < j < |entries| ==> entries[i].0 != entries[j].0
  }

  /** A JSON object: distinct names; a value that is not a number is `None`. */
  type JsonObject = s: seq<(string, Option<real>)> | DistinctNames(s) witness []

  /** A job as Tinker reports it. The cost is what the price table makes of it. */
  datatype Payload = Payload(status: string, gpuSeconds: Option<real>, cost: real,
                             startedAt: Option<string>, finishedAt: Option<string>,
                             step: Option<I64>, metrics: Option<JsonObject>)

  datatype Update =
    | Metric(run: RunId, status: string, step: I64, name: string, value: real)
    | Heartbeat(run: RunId, status: string, step: I64)

  // ---- One applied poll, as a function -----------------------------------------

  function Numbers(entries: seq<(string, Option<real>)>): Pairs {
    if entries == [] then []
    else (match entries[0].1 case None => [] case Some(v) => [(entries[0].0, v)]) + Numbers(entries[1..])
  }

  function PairsOf(p: Payload): Pairs {
    match p.metrics case None => [] case Some(m) => Numbers(m)
  }

  function Candidate(p: Payload, last: I64): I64 {
    match p.step case Some(s) => s case None => Wrap64(last + 1)
  }

  predicate Writes(p: Payload, last: I64) {
    PairsOf(p) != [] && Candidate(p, last) > last
  }

  function Or<T>(a: Option<T>, b: Option<T>): Option<T> {
    if a.Some? then a else b
  }

  function UpdateRow(row: RunRow, p: Payload): RunRow {
    RunRow(p.status, match p.gpuSeconds case Some(g) => g case None => 0.0, p.cost,
           Or(row.startedAt, p.startedAt), Or(p.finishedAt, row.finishedAt))
  }

  function UpdateRuns(runs: map<RunId, RunRow>, run: RunId, p: Payload): map<RunId, RunRow> {
    if run in runs then runs[run := UpdateRow(runs[run], p)] else runs
  }

  /** One `INSERT ... ON CONFLICT DO UPDATE` per pair. */
  function Upsert(t: Table, run: RunId, step: I64, pairs: Pairs): Table
    decreases |pairs|
  {
    if pairs == [] then t
    else Upsert(t[Key(run, step, pairs[0].0) := pairs[0].1], run, step, pairs[1..])
  }

  function Commit(db: Db, run: RunId, p: Payload, last: I64): Db {
    Db(UpdateRuns(db.runs, run, p),
       if Writes(p, last) then Upsert(db.metrics, run, Candidate(p, last), PairsOf(p)) else db.metrics)
  }

  function NextLast(p: Payload, last: I64): I64 {
    if Writes(p, last) then Candidate(p, last) else last
  }

  function MetricUpdates(run: RunId, status: string, step: I64, pairs: Pairs): (r: seq<Update>)
    ensures |r| == |pairs|
    ensures forall i :: 0 <= i < |r| ==> r[i] == Metric(run, status, step, pairs[i].0, pairs[i].1)
  {
    seq(|pairs|, i requires 0 <= i < |pairs| => Metric(run, status, step, pairs[i].0, pairs[i].1))
  }

  /** What subscribers are told after a commit. */
  function Announce(run: RunId, p: Payload, last: I64): seq<Update> {
    if Writes(p, last) then MetricUpdates(run, p.status, Candidate(p, last), PairsOf(p))
    else if PairsOf(p) == [] then [Heartbeat(run, p.status, last)]
    else []
  }

  // ---- MAX(step) ------------------------------------------------------------------

  function StepsOf(t: Table, run: RunId): set<int> {
    set k | k in t && k.run == run :: k.step
  }

  ghost predicate IsLast(t: Table, run: RunId, m: int) {
    && (forall k :: k in t && k.run == run ==> k.step <= m)
    && ((exists k :: k in t && k.run == run && k.step == m) || (StepsOf(t, run) == {} && m == -1))
  }

  ghost function MaxOf(s: set<int>): (m: int)
    requires s != {}
    ensures m in s && forall x :: x in s ==> x <= m
  {
    assert exists x :: x in s by {
      if forall x :: x !in s {
        assert false;
      }
    }
    var x :| x in s;
    if s == {x} then x
    else
      var rest := MaxOf(s - {x});
      assert forall y :: y in s ==> y == x || y in s - {x};
      if rest > x then rest else x
  }

  /** `COALESCE(MAX(step), -1)` over the rows of a run. */
  ghost function LastStep(t: Table, run: RunId): (m: I64)
    ensures IsLast(t, run, m)
  {
    var steps := StepsOf(t, run);
    if steps == {} then
      assert forall k :: k in t && k.run == run ==> k.step in steps;
      -1
    else
      var m := MaxOf(steps);
      assert exists k :: k in t && k.run == run && k.step == m;
      assert forall k :: k in t && k.run == run ==> k.step in steps;
      m
  }

  lemma LastIsUnique(t: Table, run: RunId, m: int)
    requires IsLast(t, run, m)
    ensures LastStep(t, run) == m
  {
    assert forall k :: k in t && k.run == run ==> k.step in StepsOf(t, run);
  }

  // ---- The upsert ------------------------------------------------------------------

  predicate Named(pairs: Pairs, name: string) {
    exists i :: 0 <= i < |pairs| && pairs[i].0 == name
  }

  lemma {:induction false} UpsertKeys(t: Table, run: RunId, step: I64, pairs: Pairs, k: Key)
    ensures k in Upsert(t, run, step, pairs)
       <==> k in t || (k.run == run && k.step == step && Named(pairs, k.name))
    ensures k in t && !(k.run == run && k.step == step && Named(pairs, k.name))
        ==> Upsert(t, run, step, pairs)[k] == t[k]
    decreases |pairs|
  {
    if pairs != [] {
      UpsertKeys(t[Key(run, step, pairs[0].0) := pairs[0].1], run, step, pairs[1..], k);
      assert Named(pairs, k.name) <==> pairs[0].0 == k.name || Named(pairs[1..], k.name) by {
        if Named(pairs, k.name) {
          var i :| 0 <= i < |pairs| && pairs[i].0 == k.name;
          if i > 0 {
            assert pairs[1..][i - 1].0 == k.name;
          }
        }
        if Named(pairs[1..], k.name) {
          var i :| 0 <= i < |pairs[1..]| && pairs[1..][i].0 == k.name;
          assert pairs[i + 1].0 == k.name;
        }
      }
    }
  }

  ghost predicate DistinctPairs(pairs: Pairs) {
    forall i, j :: 0 <= i < j < |pairs| ==> pairs[i].0 != pairs[j].0
  }

  lemma {:induction false} NumbersAreNamed(entries: seq<(string, Option<real>)>, i: nat)
    requires i < |Numbers(entries)|
    ensures exists k :: 0 <= k < |entries| && entries[k].0 == Numbers(entries)[i].0
  {
    var head := match entries[0].1 case None => [] case Some(v) => [(entries[0].0, v)];
    if i >= |head| {
      NumbersAreNamed(entries[1..], i - |head|);
      var k :| 0 <= k < |entries[1..]| && entries[1..][k].0 == Numbers(entries[1..])[i - |head|].0;
      assert entries[k + 1].0 == Numbers(entries)[i].0;
    }
  }

  lemma {:induction false} NumbersDistinct(entries: seq<(string, Option<real>)>)
    requires DistinctNames(entries)
    ensures DistinctPairs(Numbers(entries))
  {
    if entries != [] {
      NumbersDistinct(entries[1..]);
      var more := Numbers(entries[1..]);
      forall i | 0 <= i < |more| ensures more[i].0 != entries[0].0 {
        NumbersAreNamed(entries[1..], i);
      }
    }
  }

  lemma PairsDistinct(p: Payload)
    ensures DistinctPairs(PairsOf(p))
  {
    if p.metrics.Some? {
      NumbersDistinct(p.metrics.value);
    }
  }

  /** The rows a table must hold for a batch to be stored in it. */
  ghost predicate Holds(t: Table, run: RunId, step: I64, pairs: Pairs) {
    forall i :: 0 <= i < |pairs| ==>
      var k := Key(run, step, pairs[i].0);
      k in t && t[k] == pairs[i].1
  }

  lemma {:induction false} UpsertHolds(t: Table, run: RunId, step: I64, pairs: Pairs)
    requires DistinctPairs(pairs)
    ensures Holds(Upsert(t, run, step, pairs), run, step, pairs)
    decreases |pairs|
  {
    if pairs != [] {
      var t1 := t[Key(run, step, pairs[0].0) := pairs[0].1];
      UpsertHolds(t1, run, step, pairs[1..]);
      UpsertKeys(t1, run, step, pairs[1..], Key(run, step, pairs[0].0));
      forall i | 0 <= i < |pairs|
        ensures var k := Key(run, step, pairs[i].0);
                k in Upsert(t, run, step, pairs) && Upsert(t, run, step, pairs)[k] == pairs[i].1
      {
        if i > 0 {
          assert pairs[1..][i - 1] == pairs[i];
        }
      }
    }
  }

  /** Storing a batch again changes nothing. */
  lemma {:induction false} UpsertAgain(t: Table, run: RunId, step: I64, pairs: Pairs)
    requires Holds(t, run, step, pairs)
    ensures Upsert(t, run, step, pairs) == t
  {
    if pairs != [] {
      assert t[Key(run, step, pairs[0].0) := pairs[0].1] == t;
      forall i | 0 <= i < |pairs| - 1 ensures pairs[1..][i] == pairs[i + 1] {}
      UpsertAgain(t, run, step, pairs[1..]);
    }
  }

  // ---- Write-once ------------------------------------------------------------------

  ghost predicate KeepsRows(a: Table, b: Table) {
    forall k :: k in a ==> k in b && b[k] == a[k]
  }

  lemma CommitKeepsRows(db: Db, run: RunId, p: Payload, last: I64)
    requires last >= LastStep(db.metrics, run)
    ensures KeepsRows(db.metrics, Commit(db, run, p, last).metrics)
  {
    forall k | k in db.metrics
      ensures k in Commit(db, run, p, last).metrics && Commit(db, run, p, last).metrics[k] == db.metrics[k]
    {
      UpsertKeys(db.metrics, run, Candidate(p, last), PairsOf(p), k);
    }
  }

  /** No payload can change a committed row exactly when the in-memory step is not
      behind the table: the recovered step is, the fallback -1 is not. */
  lemma WriteOnceIffNotBehind(db: Db, run: RunId, last: I64)
    ensures (forall p :: KeepsRows(db.metrics, Commit(db, run, p, last).metrics))
       <==> (StepsOf(db.metrics, run) == {} || last >= LastStep(db.metrics, run))
  {
    var m := LastStep(db.metrics, run);
    if last >= m {
      forall p ensures KeepsRows(db.metrics, Commit(db, run, p, last).metrics) {
        CommitKeepsRows(db, run, p, last);
      }
    } else if StepsOf(db.metrics, run) == {} {
      forall p, k | k in db.metrics
        ensures k in Commit(db, run, p, last).metrics && Commit(db, run, p, last).metrics[k] == db.metrics[k]
      {
        assert k.run == run ==> k.step in StepsOf(db.metrics, run);
        UpsertKeys(db.metrics, run, Candidate(p, last), PairsOf(p), k);
      }
    } else {
      var k :| k in db.metrics && k.run == run && k.step == m;
      var p := Payload("running", None, 0.0, None, None, Some(m), Some([(k.name, Some(db.metrics[k] + 1.0))]));
      var pairs := [(k.name, db.metrics[k] + 1.0)];
      assert PairsOf(p) == pairs by {
        assert p.metrics.value[1..] == [];
        assert Numbers(p.metrics.value) == pairs + Numbers([]);
      }
      UpsertHolds(db.metrics, run, m, pairs);
      assert Upsert(db.metrics, run, m, pairs)[k] == pairs[0].1;
      assert !KeepsRows(db.metrics, Commit(db, run, p, last).metrics);
    }
  }

  /** Committing with the step of the table moves both along together. */
  lemma CommitMovesLast(db: Db, run: RunId, p: Payload, other: RunId)
    ensures var last := LastStep(db.metrics, run);
            var after := Commit(db, run, p, last).metrics;
            LastStep(after, other) == if other == run then NextLast(p, last) else LastStep(db.metrics, other)
  {
    var last := LastStep(db.metrics, run);
    var pairs, step := PairsOf(p), Candidate(p, last);
    if Writes(p, last) {
      var after := Upsert(db.metrics, run, step, pairs);
      forall k: Key
        ensures k in after <==> k in db.metrics || (k.run == run && k.step == step && Named(pairs, k.name))
      {
        UpsertKeys(db.metrics, run, step, pairs, k);
      }
      if other == run {
        assert Named(pairs, pairs[0].0);
        assert Key(run, step, pairs[0].0) in after;
        LastIsUnique(after, run, step);
      } else {
        assert StepsOf(after, other) == StepsOf(db.metrics, other) by {
          forall k: Key | k.run == other ensures k in after <==> k in db.metrics {}
        }
        LastIsUnique(after, other, LastStep(db.metrics, other));
      }
    }
  }

  // ---- One applied poll, in the payload's own terms ----------------------------------------

  /** The payload has this number under this name. */
  predicate Reports(p: Payload, name: string, v: real) {
    p.metrics.Some? && (name, Some(v)) in p.metrics.value
  }

  ghost predicate ReportsNumbers(p: Payload) {
    exists name, v :: Reports(p, name, v)
  }

  /** The step of the payload, or else the one after the step in memory, wrapping around. */
  predicate IsStepOf(p: Payload, last: I64, step: I64) {
    match p.step
    case Some(s) => step == s
    case None => step == if last < 0x7fff_ffff_ffff_ffff then last + 1 else -0x8000_0000_0000_0000
  }

  /** The row takes over status, GPU time and cost, keeps its first start, and takes the
      latest end. */
  predicate RowTakes(row: RunRow, p: Payload, after: RunRow) {
    && after.status == p.status && after.cost == p.cost
    && (p.gpuSeconds.Some? ==> after.gpuSeconds == p.gpuSeconds.value)
    && (p.gpuSeconds.None? ==> after.gpuSeconds == 0.0)
    && (row.startedAt.Some? ==> after.startedAt == row.startedAt)
    && (row.startedAt.None? ==> after.startedAt == p.startedAt)
    && (p.finishedAt.Some? ==> after.finishedAt == p.finishedAt)
    && (p.finishedAt.None? ==> after.finishedAt == row.finishedAt)
  }

  ghost predicate RunsTake(before: map<RunId, RunRow>, run: RunId, p: Payload, after: map<RunId, RunRow>) {
    && after.Keys == before.Keys
    && (forall r :: r in before && r != run ==> after[r] == before[r])
    && (run in before ==> RowTakes(before[run], p, after[run]))
  }

  /** Exactly the payload's numbers are stored, at this step, and told in its order. */
  ghost predicate NumbersStored(before: Table, after: Table, told: seq<Update>, run: RunId, p: Payload, step: I64) {
    && (forall k :: k in before ==> k in after)
    && (forall name, v :: Reports(p, name, v) ==>
          Key(run, step, name) in after && after[Key(run, step, name)] == v)
    && (forall k :: k in after ==>
          || (k in before && after[k] == before[k])
          || (k.run == run && k.step == step && Reports(p, k.name, after[k])))
    && (forall u :: u in told <==>
          u.Metric? && u.run == run && u.status == p.status && u.step == step && Reports(p, u.name, u.value))
    && (p.metrics.Some? ==> InOrder(told, p.metrics.value))
  }

  ghost predicate InOrder(told: seq<Update>, entries: seq<(string, Option<real>)>) {
    forall i, j :: 0 <= i < j < |told| ==> Follows(told[i], told[j], entries)
  }

  ghost predicate Follows(u: Update, v: Update, entries: seq<(string, Option<real>)>) {
    u.Metric? && v.Metric? &&
    exists a, b :: 0 <= a < b < |entries| && entries[a].0 == u.name && entries[b].0 == v.name
  }

  /** What an applied poll does: numbers beyond the step in memory are stored and told and
      the step moves; without numbers there is a heartbeat; else only the run row changes. */
  ghost predicate Applied(before: Db, after: Db, told: seq<Update>, run: RunId, p: Payload, last: I64, newLast: I64) {
    && RunsTake(before.runs, run, p, after.runs)
    && exists step: I64 :: IsStepOf(p, last, step) &&
         if ReportsNumbers(p) && step > last then
           newLast == step && NumbersStored(before.metrics, after.metrics, told, run, p, step)
         else
           && newLast == last && after.metrics == before.metrics
           && told == if ReportsNumbers(p) then [] else [Heartbeat(run, p.status, last)]
  }

  /** The numbers of an object are its entries that are numbers, in order. */
  lemma {:induction false} NumbersExactly(entries: seq<(string, Option<real>)>, name: string, v: real)
    ensures (name, v) in Numbers(entries) <==> (name, Some(v)) in entries
  {
    if entries != [] {
      NumbersExactly(entries[1..], name, v);
      assert entries == [entries[0]] + entries[1..];
    }
  }

  lemma {:induction false} NumbersInOrder(entries: seq<(string, Option<real>)>, i: nat, j: nat)
    requires i < j < |Numbers(entries)|
    ensures exists a, b ::
      0 <= a < b < |entries| && entries[a].0 == Numbers(entries)[i].0 && entries[b].0 == Numbers(entries)[j].0
  {
    var rest := entries[1..];
    var n := if entries[0].1.Some? then 1 else 0;
    assert forall k :: n <= k < |Numbers(entries)| ==> Numbers(entries)[k] == Numbers(rest)[k - n];
    if i >= n {
      NumbersInOrder(rest, i - n, j - n);
      var a, b :| 0 <= a < b < |rest| && rest[a].0 == Numbers(rest)[i - n].0 && rest[b].0 == Numbers(rest)[j - n].0;
      assert entries[a + 1].0 == Numbers(entries)[i].0 && entries[b + 1].0 == Numbers(entries)[j].0;
    } else {
      NumbersAreNamed(rest, j - n);
      var b :| 0 <= b < |rest| && rest[b].0 == Numbers(rest)[j - n].0;
      assert entries[0].0 == Numbers(entries)[i].0 && entries[b + 1].0 == Numbers(entries)[j].0;
    }
  }

  lemma PairsAreReports(p: Payload, name: string, v: real)
    ensures (name, v) in PairsOf(p) <==> Reports(p, name, v)
  {
    if p.metrics.Some? {
      NumbersExactly(p.metrics.value, name, v);
    }
  }

  lemma UpdatesOf(run: RunId, status: string, step: I64, pairs: Pairs, u: Update)
    ensures u in MetricUpdates(run, status, step, pairs) <==>
      u.Metric? && u.run == run && u.status == status && u.step == step && (u.name, u.value) in pairs
  {
    var all := MetricUpdates(run, status, step, pairs);
    if u.Metric? && u.run == run && u.status == status && u.step == step && (u.name, u.value) in pairs {
      var i :| 0 <= i < |pairs| && pairs[i] == (u.name, u.value);
      assert all[i] == u;
    }
  }

  lemma NumbersAreStored(db: Db, run: RunId, p: Payload, step: I64)
    ensures NumbersStored(db.metrics, Upsert(db.metrics, run, step, PairsOf(p)),
                          MetricUpdates(run, p.status, step, PairsOf(p)), run, p, step)
  {
    hide Upsert, Numbers, MetricUpdates, PairsOf, Reports;
    var pairs := PairsOf(p);
    var after, told := Upsert(db.metrics, run, step, pairs), MetricUpdates(run, p.status, step, pairs);
    PairsDistinct(p);
    UpsertHolds(db.metrics, run, step, pairs);
    forall name, v | Reports(p, name, v)
      ensures Key(run, step, name) in after && after[Key(run, step, name)] == v
    {
      PairsAreReports(p, name, v);
      var i :| 0 <= i < |pairs| && pairs[i] == (name, v);
    }
    forall k ensures k in db.metrics ==> k in after
      ensures k in after ==>
        || (k in db.metrics && after[k] == db.metrics[k])
        || (k.run == run && k.step == step && Reports(p, k.name, after[k]))
    {
      UpsertKeys(db.metrics, run, step, pairs, k);
      if k in after && k.run == run && k.step == step && Named(pairs, k.name) {
        var i :| 0 <= i < |pairs| && pairs[i].0 == k.name;
        assert k == Key(run, step, pairs[i].0);
        PairsAreReports(p, k.name, after[k]);
      }
    }
    forall u ensures u in told <==>
      u.Metric? && u.run == run && u.status == p.status && u.step == step && Reports(p, u.name, u.value)
    {
      UpdatesOf(run, p.status, step, pairs, u);
      if u.Metric? {
        PairsAreReports(p, u.name, u.value);
      }
    }
    if p.metrics.Some? {
      ToldInOrder(run, p, step);
    }
  }

  lemma ToldInOrder(run: RunId, p: Payload, step: I64)
    requires p.metrics.Some?
    ensures InOrder(MetricUpdates(run, p.status, step, PairsOf(p)), p.metrics.value)
  {
    hide Numbers;
    var told := MetricUpdates(run, p.status, step, PairsOf(p));
    forall i, j | 0 <= i < j < |told| ensures Follows(told[i], told[j], p.metrics.value) {
      NumbersInOrder(p.metrics.value, i, j);
    }
  }

  /** A committed poll does what its payload says. */
  lemma CommitApplies(db: Db, run: RunId, p: Payload, last: I64)
    ensures Applied(db, Commit(db, run, p, last), Announce(run, p, last), run, p, last, NextLast(p, last))
  {
    hide Upsert, PairsOf, MetricUpdates, NumbersStored, Reports;
    var step := Candidate(p, last);
    assert IsStepOf(p, last, step);
    if PairsOf(p) != [] {
      var pair := PairsOf(p)[0];
      PairsAreReports(p, pair.0, pair.1);
      assert (pair.0, pair.1) == pair;
    }
    if name, v :| Reports(p, name, v) {
      PairsAreReports(p, name, v);
    }
    assert ReportsNumbers(p) <==> PairsOf(p) != [];
    NumbersAreStored(db, run, p, step);
  }
}
