/** One-shot OAuth states: a table of pending logins with expiry, consumption and a
    clean-up, against what the history of calls alone says. */
module OAuthState {
  import opened Text

  type Nonce = string
  type Agent = string
  type Time = real

  datatype Provider = Codex | OpenAI

  const STATE_TTL_SECS := 600.0
  const MAX_AGE_SECS := 3600.0

  datatype Row = Row(provider: Provider, agent: Agent, verifier: string, expiresAt: Time, usedAt: Option<Time>)

  datatype Token = Token(access: string, refresh: string, expiresAt: Option<Time>)

  /** The state parameter a callback carries; `signed` when its signature verifies. */
  datatype Payload = Payload(signed: bool, agent: Agent, nonce: Nonce, iat: int, exp: int)

  /** The token endpoint: an error status, any exception, or tokens. */
  datatype Exchange = HttpError | Broken | Tokens(access: string, refresh: string, expiresIn: Option<nat>)

  datatype Step =
    | Start(provider: Provider, nonce: Nonce, agent: Agent, verifier: string, now: Time)
    | Callback(payload: Payload, agent: Agent, exchange: Exchange, now: Time)
    | Cleanup(now: Time)

  /** A callback's answer; `Connected` carries the verifier sent with the code. */
  datatype Outcome =
    | BadSignature | StateExpired | UsedOrUnknown | AgentMismatch | ExchangeFailed | ServerError
    | Connected(verifier: string, token: Token)

  datatype State = State(rows: map<Nonce, Row>, tokens: map<Agent, Token>)

  const EMPTY := State(map[], map[])

  // ---- One step on the table ------------------------------------------------------------------

  /** `_verify_state`. */
  function PayloadError(p: Payload, now: Time): Option<Outcome> {
    if !p.signed then Some(BadSignature)
    else if p.exp <= 0 || now.Floor > p.exp || now.Floor < p.iat - 5 then Some(StateExpired)
    else None
  }

  /** A row `_db_consume_pending` finds. */
  predicate Usable(r: Row, now: Time) {
    r.provider == Codex && r.usedAt.None? && r.expiresAt > now
  }

  function TokenOf(x: Exchange, now: Time): Token
    requires x.Tokens?
  {
    Token(x.access, x.refresh,
          if x.expiresIn.Some? && x.expiresIn.value != 0 then Some(now + x.expiresIn.value as real) else None)
  }

  /** What follows once a pending login of this agent and verifier was found. */
  function Completed(step: Step, agent: Agent, verifier: string): Outcome
    requires step.Callback?
  {
    if agent != step.payload.agent || step.payload.agent != step.agent then AgentMismatch
    else
      match step.exchange
      case HttpError => ExchangeFailed
      case Broken => ServerError
      case Tokens(_, _, _) => Connected(verifier, TokenOf(step.exchange, step.now))
  }

  function OutcomeOf(s: State, step: Step): Outcome
    requires step.Callback?
  {
    var bad := PayloadError(step.payload, step.now);
    var nonce := step.payload.nonce;
    if bad.Some? then bad.value
    else if nonce !in s.rows || !Usable(s.rows[nonce], step.now) then UsedOrUnknown
    else Completed(step, s.rows[nonce].agent, s.rows[nonce].verifier)
  }

  /** Only a connected callback commits; every other one ends its session unsaved. */
  function Do(s: State, step: Step): State {
    match step
    case Start(provider, nonce, agent, verifier, now) =>
      if nonce in s.rows then s
      else s.(rows := s.rows[nonce := Row(provider, agent, verifier, now + STATE_TTL_SECS, None)])
    case Callback(payload, agent, _, now) =>
      (match OutcomeOf(s, step)
       case Connected(_, token) =>
         var row := s.rows[payload.nonce];
         State(s.rows[payload.nonce := row.(usedAt := Some(now))], s.tokens[agent := token])
       case _ => s)
    case Cleanup(now) =>
      s.(rows := map n | n in s.rows && s.rows[n].expiresAt >= now - MAX_AGE_SECS :: s.rows[n])
  }

  class Store {
    var rows: map<Nonce, Row>
    var tokens: map<Agent, Token>

    constructor ()
      ensures Contents() == EMPTY
    {
      rows, tokens := map[], map[];
    }

    function Contents(): State
      reads this
    {
      State(rows, tokens)
    }

    /** `_db_remember_pending` and its commit; a nonce already there violates the key. */
    method Remember(provider: Provider, nonce: Nonce, agent: Agent, verifier: string, now: Time)
      modifies this
      ensures Contents() == Do(old(Contents()), Start(provider, nonce, agent, verifier, now))
      ensures tokens == old(tokens)
      ensures rows == if nonce in old(rows) then old(rows)
                      else old(rows)[nonce := Row(provider, agent, verifier, now + 600.0, None)]
    {
      if nonce !in rows {
        rows := rows[nonce := Row(provider, agent, verifier, now + STATE_TTL_SECS, None)];
      }
    }

    /** `oauth_callback`: what the session changes is kept only at the commit. */
    method HandleCallback(payload: Payload, agent: Agent, exchange: Exchange, now: Time) returns (r: Outcome)
      modifies this
      ensures r == OutcomeOf(old(Contents()), Callback(payload, agent, exchange, now))
      ensures Contents() == Do(old(Contents()), Callback(payload, agent, exchange, now))
    {
      var bad := PayloadError(payload, now);
      if bad.Some? {
        return bad.value;
      }
      if payload.nonce !in rows || !Usable(rows[payload.nonce], now) {
        return UsedOrUnknown;
      }
      var pending := rows[payload.nonce];
      var session := rows[payload.nonce := pending.(usedAt := Some(now))];
      if pending.agent != payload.agent || payload.agent != agent {
        return AgentMismatch;
      }
      match exchange {
        case HttpError => return ExchangeFailed;
        case Broken => return ServerError;
        case Tokens(_, _, _) =>
          var token := TokenOf(exchange, now);
          rows, tokens := session, tokens[agent := token];
          return Connected(pending.verifier, token);
      }
    }

    /** `_cleanup_expired_oauth_states`. */
    method CleanUp(now: Time)
      modifies this
      ensures Contents() == Do(old(Contents()), Cleanup(now))
      ensures tokens == old(tokens)
      ensures forall n :: n in rows <==> n in old(rows) && old(rows)[n].expiresAt >= now - 3600.0
      ensures forall n :: n in rows ==> rows[n] == old(rows)[n]
    {
      var cutoff := now - MAX_AGE_SECS;
      rows := map n | n in rows && !(rows[n].expiresAt < cutoff) :: rows[n];
    }
  }

  // ---- The history alone -----------------------------------------------------------------------

  function Init(steps: seq<Step>): seq<Step>
    requires steps != []
  {
    steps[..|steps| - 1]
  }

  function Last(steps: seq<Step>): Step
    requires steps != []
  {
    steps[|steps| - 1]
  }

  function After(steps: seq<Step>): State {
    if steps == [] then EMPTY else Do(After(Init(steps)), Last(steps))
  }

  /** The start of the nonce's login. */
  function StartOf(steps: seq<Step>, nonce: Nonce): Option<Step> {
    if steps == [] then None
    else if Last(steps).Start? && Last(steps).nonce == nonce then Some(Last(steps))
    else StartOf(Init(steps), nonce)
  }

  /** What a callback should answer, from what was called before and nothing else: the
      login was started for this provider less than the time to live ago, no callback has
      completed it, the three agents are one, and the exchange succeeds. */
  function Expected(steps: seq<Step>, step: Step): Outcome
    requires step.Callback?
    decreases |steps|, 1
  {
    var bad := PayloadError(step.payload, step.now);
    var start := StartOf(steps, step.payload.nonce);
    if bad.Some? then bad.value
    else if start.None? || !start.value.Start? || start.value.provider != Codex
         || Burned(steps, step.payload.nonce) || start.value.now + STATE_TTL_SECS <= step.now then
      UsedOrUnknown
    else Completed(step, start.value.agent, start.value.verifier)
  }

  /** Some callback has completed the nonce's login. */
  predicate Burned(steps: seq<Step>, nonce: Nonce)
    decreases |steps|, 0
  {
    steps != [] &&
      (Burned(Init(steps), nonce)
       || (Last(steps).Callback? && Last(steps).payload.nonce == nonce && Expected(Init(steps), Last(steps)).Connected?))
  }

  /** The tokens of each agent: those of its last completed login. */
  function ExpectedTokens(steps: seq<Step>): map<Agent, Token> {
    if steps == [] then map[]
    else
      var tokens := ExpectedTokens(Init(steps));
      if Last(steps).Callback? && Expected(Init(steps), Last(steps)).Connected? then
        tokens[Last(steps).agent := Expected(Init(steps), Last(steps)).token]
      else tokens
  }

  ghost predicate AllBefore(steps: seq<Step>, t: Time) {
    forall i :: 0 <= i < |steps| ==> steps[i].now <= t
  }

  /** The clock never goes back, and no nonce is drawn twice. */
  ghost predicate Serial(steps: seq<Step>) {
    steps != [] ==>
      && Serial(Init(steps))
      && AllBefore(Init(steps), Last(steps).now)
      && (Last(steps).Start? ==> StartOf(Init(steps), Last(steps).nonce).None?)
  }

  lemma {:induction false} StartIsStart(steps: seq<Step>, nonce: Nonce)
    ensures var st := StartOf(steps, nonce); st.Some? ==> st.value.Start? && st.value.nonce == nonce && st.value in steps
  {
    if steps != [] {
      StartIsStart(Init(steps), nonce);
    }
  }

  lemma {:induction false} NotStartedNotBurned(steps: seq<Step>, nonce: Nonce)
    requires StartOf(steps, nonce).None?
    ensures !Burned(steps, nonce)
  {
    if steps != [] {
      NotStartedNotBurned(Init(steps), nonce);
    }
  }

  /** A row is what its start and the history made it. */
  ghost predicate RowFits(steps: seq<Step>, nonce: Nonce, r: Row) {
    var st := StartOf(steps, nonce);
    && st.Some? && st.value.Start?
    && r.provider == st.value.provider && r.agent == st.value.agent && r.verifier == st.value.verifier
    && r.expiresAt == st.value.now + STATE_TTL_SECS
    && (r.usedAt.Some? <==> Burned(steps, nonce))
  }

  /** A nonce has its row, or no start, or a start too old to matter. */
  ghost predicate Fits(steps: seq<Step>, s: State, nonce: Nonce) {
    if nonce in s.rows then RowFits(steps, nonce, s.rows[nonce])
    else
      StartOf(steps, nonce).None?
      || (StartOf(steps, nonce).value.Start? && steps != []
          && StartOf(steps, nonce).value.now + STATE_TTL_SECS < Last(steps).now)
  }

  /** Table and history give the same answer. */
  lemma OutcomeAgrees(steps: seq<Step>, step: Step)
    requires step.Callback? && Fits(steps, After(steps), step.payload.nonce) && AllBefore(steps, step.now)
    ensures OutcomeOf(After(steps), step) == Expected(steps, step)
  {
    hide After, Burned, StartOf, Completed;
    var nonce := step.payload.nonce;
    if nonce !in After(steps).rows && StartOf(steps, nonce).Some? {
      assert Last(steps).now <= step.now;
    }
  }

  lemma FitsStep(steps: seq<Step>, nonce: Nonce)
    requires steps != [] && Serial(steps)
    requires Fits(Init(steps), After(Init(steps)), nonce)
    requires Last(steps).Callback? ==> OutcomeOf(After(Init(steps)), Last(steps)) == Expected(Init(steps), Last(steps))
    ensures Fits(steps, After(steps), nonce)
  {
    hide OutcomeOf, Expected;
    var before, step := Init(steps), Last(steps);
    var s, t := After(before), After(steps);
    assert t == Do(s, step);
    if before != [] {
      assert before[|before| - 1].now <= step.now;
    }
    if step.Start? && step.nonce == nonce {
      NotStartedNotBurned(before, nonce);
    }
    match step
    case Callback(payload, _, _, _) =>
      if OutcomeOf(s, step).Connected? {
        ConnectedHasRow(s, step);
      }
    case _ =>
  }

  lemma ConnectedHasRow(s: State, step: Step)
    requires step.Callback? && OutcomeOf(s, step).Connected?
    ensures step.payload.nonce in s.rows && Usable(s.rows[step.payload.nonce], step.now)
  {
  }

  /** Whatever the clean-up has deleted, every callback answers, and the tokens are, as
      the history says. */
  lemma {:induction false} TableRefinesHistory(steps: seq<Step>)
    requires Serial(steps)
    ensures forall nonce :: Fits(steps, After(steps), nonce)
    ensures After(steps).tokens == ExpectedTokens(steps)
    ensures forall step: Step :: step.Callback? && AllBefore(steps, step.now) ==>
      OutcomeOf(After(steps), step) == Expected(steps, step)
  {
    hide OutcomeOf, Expected, Fits, Do;
    if steps == [] {
      EmptyFits();
    } else {
      TableRefinesHistory(Init(steps));
      forall nonce ensures Fits(steps, After(steps), nonce) {
        FitsStep(steps, nonce);
      }
      TokensStep(steps);
    }
    forall step: Step | step.Callback? && AllBefore(steps, step.now)
      ensures OutcomeOf(After(steps), step) == Expected(steps, step)
    {
      OutcomeAgrees(steps, step);
    }
  }

  lemma EmptyFits()
    ensures forall nonce :: Fits([], EMPTY, nonce)
  {
  }

  lemma TokensStep(steps: seq<Step>)
    requires steps != [] && After(Init(steps)).tokens == ExpectedTokens(Init(steps))
    requires Last(steps).Callback? ==> OutcomeOf(After(Init(steps)), Last(steps)) == Expected(Init(steps), Last(steps))
    ensures After(steps).tokens == ExpectedTokens(steps)
  {
    hide OutcomeOf, Expected;
  }

  // ---- One commit per nonce, in time, by the agent that started --------------------------------------

  lemma {:induction false} PrefixIsSerial(steps: seq<Step>, i: nat)
    requires Serial(steps) && i <= |steps|
    ensures Serial(steps[..i])
    ensures i < |steps| ==> AllBefore(steps[..i], steps[i].now)
  {
    hide StartOf;
    if i == |steps| {
      assert steps[..i] == steps;
    } else if i == |steps| - 1 {
      assert steps[..i] == Init(steps);
    } else {
      PrefixIsSerial(Init(steps), i);
      assert Init(steps)[..i] == steps[..i] && Init(steps)[i] == steps[i];
    }
  }

  /** Step `i` is a callback that commits tokens. */
  ghost predicate Commits(steps: seq<Step>, i: nat) {
    i < |steps| && steps[i].Callback? && OutcomeOf(After(steps[..i]), steps[i]).Connected?
  }

  lemma CommitsAsExpected(steps: seq<Step>, i: nat)
    requires Serial(steps) && i < |steps| && steps[i].Callback?
    ensures OutcomeOf(After(steps[..i]), steps[i]) == Expected(steps[..i], steps[i])
  {
    hide OutcomeOf, Expected, Serial;
    PrefixIsSerial(steps, i);
    TableRefinesHistory(steps[..i]);
  }

  lemma {:induction false} CommitBurns(steps: seq<Step>, i: nat, j: nat)
    requires i < j <= |steps| && steps[i].Callback? && Expected(steps[..i], steps[i]).Connected?
    ensures Burned(steps[..j], steps[i].payload.nonce)
  {
    hide Expected;
    assert Init(steps[..j]) == steps[..j - 1];
    if i < j - 1 {
      CommitBurns(steps, i, j - 1);
    }
  }

  /** At most one callback per nonce commits. */
  lemma OneCommitPerNonce(steps: seq<Step>, i: nat, j: nat)
    requires Serial(steps) && Commits(steps, i) && Commits(steps, j)
    requires steps[i].payload.nonce == steps[j].payload.nonce
    ensures i == j
  {
    hide OutcomeOf, Burned, StartOf, Serial;
    CommitsAsExpected(steps, i);
    CommitsAsExpected(steps, j);
    if i < j {
      CommitBurns(steps, i, j);
    } else if j < i {
      CommitBurns(steps, j, i);
    }
  }

  /** It commits before the login expires, for the agent that started it, and sends the
      verifier of that start. */
  lemma CommitIsForItsStart(steps: seq<Step>, i: nat) returns (k: nat)
    requires Serial(steps) && Commits(steps, i)
    ensures k < i && steps[k].Start? && steps[k].nonce == steps[i].payload.nonce && steps[k].provider == Codex
    ensures steps[k].agent == steps[i].payload.agent == steps[i].agent
    ensures steps[k].now <= steps[i].now < steps[k].now + 600.0
    ensures OutcomeOf(After(steps[..i]), steps[i]).verifier == steps[k].verifier
  {
    hide OutcomeOf, Burned, Serial, StartOf;
    CommitsAsExpected(steps, i);
    PrefixIsSerial(steps, i);
    StartIsStart(steps[..i], steps[i].payload.nonce);
    var start := StartOf(steps[..i], steps[i].payload.nonce).value;
    k :| 0 <= k < i && steps[..i][k] == start;
    assert steps[k] == start;
  }

  // ---- Every answer, from the calls before it -----------------------------------------------------

  lemma {:induction false} BurnedIff(steps: seq<Step>, i: nat, nonce: Nonce)
    requires Serial(steps) && i <= |steps|
    ensures Burned(steps[..i], nonce) <==> exists j :: 0 <= j < i && Commits(steps, j) && steps[j].payload.nonce == nonce
  {
    hide OutcomeOf, Expected, Serial;
    if i > 0 {
      assert Init(steps[..i]) == steps[..i - 1] && Last(steps[..i]) == steps[i - 1];
      BurnedIff(steps, i - 1, nonce);
      if steps[i - 1].Callback? {
        CommitsAsExpected(steps, i - 1);
      }
    }
  }

  lemma {:induction false} StartIsFound(steps: seq<Step>, k: nat)
    requires Serial(steps) && k < |steps| && steps[k].Start?
    ensures StartOf(steps, steps[k].nonce) == Some(steps[k])
  {
    if k < |steps| - 1 {
      assert Init(steps)[k] == steps[k];
      StartIsFound(Init(steps), k);
    }
  }

  /** Call `k` started the login that callback `i` can complete: for this provider, less
      than ten minutes before, and no callback in between has completed it. */
  ghost predicate Pending(steps: seq<Step>, i: nat, k: nat) {
    && k < i < |steps| && steps[i].Callback? && steps[k].Start? && steps[k].nonce == steps[i].payload.nonce
    && steps[k].provider == Codex && steps[i].now < steps[k].now + 600.0
    && forall j :: 0 <= j < i && Commits(steps, j) ==> steps[j].payload.nonce != steps[i].payload.nonce
  }

  /** The signed state is within its own times. */
  predicate InTime(p: Payload, now: Time) {
    0 < p.exp && now.Floor <= p.exp && p.iat - 5 <= now.Floor
  }

  /** The token of an exchange: its texts, and an end if it says how long it lasts. */
  predicate TokenFrom(t: Token, x: Exchange, now: Time) {
    && x.Tokens? && t.access == x.access && t.refresh == x.refresh
    && t.expiresAt ==
         match x.expiresIn case None => None case Some(n) => if n == 0 then None else Some(now + n as real)
  }

  /** The answer to callback `i`, check by check. */
  ghost predicate Answers(steps: seq<Step>, i: nat, r: Outcome)
    requires i < |steps| && steps[i].Callback?
  {
    var p := steps[i].payload;
    if !p.signed then r == BadSignature
    else if !InTime(p, steps[i].now) then r == StateExpired
    else if forall k: nat :: !Pending(steps, i, k) then r == UsedOrUnknown
    else exists k: nat :: Pending(steps, i, k) && AnswersFor(steps[k], steps[i], r)
  }

  /** The answer once the start of the login is found. */
  predicate AnswersFor(start: Step, step: Step, r: Outcome)
    requires start.Start? && step.Callback?
  {
    if start.agent != step.payload.agent || step.payload.agent != step.agent then r == AgentMismatch
    else if step.exchange.HttpError? then r == ExchangeFailed
    else if step.exchange.Broken? then r == ServerError
    else r.Connected? && r.verifier == start.verifier && TokenFrom(r.token, step.exchange, step.now)
  }

  lemma CompletedAnswers(start: Step, step: Step)
    requires start.Start? && step.Callback?
    ensures AnswersFor(start, step, Completed(step, start.agent, start.verifier))
  {
  }

  /** What every callback of a serial history is answered. */
  lemma CallbackAnswer(steps: seq<Step>, i: nat)
    requires Serial(steps) && i < |steps| && steps[i].Callback?
    ensures Answers(steps, i, OutcomeOf(After(steps[..i]), steps[i]))
  {
    hide OutcomeOf, After, Burned, Serial, StartOf, Commits, Completed, AnswersFor;
    CommitsAsExpected(steps, i);
    var p := steps[i].payload;
    var before := steps[..i];
    BurnedIff(steps, i, p.nonce);
    StartIsStart(before, p.nonce);
    PrefixIsSerial(steps, i);
    var start := StartOf(before, p.nonce);
    forall k: nat | k < i && steps[k].Start? && steps[k].nonce == p.nonce ensures start == Some(steps[k]) {
      assert before[k] == steps[k];
      StartIsFound(before, k);
    }
    if start.Some? {
      var k :| 0 <= k < i && before[k] == start.value;
      assert steps[k] == start.value;
      assert Pending(steps, i, k) <==>
        start.value.provider == Codex && steps[i].now < start.value.now + 600.0 && !Burned(before, p.nonce);
      CompletedAnswers(steps[k], steps[i]);
      assert forall m: nat :: Pending(steps, i, m) ==> steps[m] == steps[k];
    }
  }

  lemma CommitTokens(steps: seq<Step>, i: nat)
    requires Commits(steps, i)
    ensures After(steps[..i + 1]).tokens ==
      After(steps[..i]).tokens[steps[i].agent := OutcomeOf(After(steps[..i]), steps[i]).token]
  {
    hide OutcomeOf;
    assert Init(steps[..i + 1]) == steps[..i] && Last(steps[..i + 1]) == steps[i];
  }

  /** The last commit for the agent among the first `n` steps. */
  ghost predicate LastCommitOf(steps: seq<Step>, n: nat, agent: Agent, i: nat) {
    && i < n && Commits(steps, i) && steps[i].agent == agent
    && forall j :: i < j < n && Commits(steps, j) ==> steps[j].agent != agent
  }

  /** An agent has a token exactly if a callback has committed one for it, and it is the
      token of the last one's exchange. */
  lemma {:induction false} TokensAreLastCommits(steps: seq<Step>, n: nat, agent: Agent)
    requires Serial(steps) && n <= |steps|
    ensures var tokens := After(steps[..n]).tokens;
            && (agent in tokens <==> exists i: nat :: LastCommitOf(steps, n, agent, i))
            && (agent in tokens ==>
                  exists i: nat :: LastCommitOf(steps, n, agent, i)
                                && TokenFrom(tokens[agent], steps[i].exchange, steps[i].now))
  {
    hide OutcomeOf, Serial, TokenFrom;
    if n > 0 {
      var i := n - 1;
      TokensAreLastCommits(steps, i, agent);
      assert Init(steps[..n]) == steps[..i] && Last(steps[..n]) == steps[i];
      if Commits(steps, i) {
        CommitTokens(steps, i);
        CommitToken(steps, i);
        if steps[i].agent == agent {
          assert LastCommitOf(steps, n, agent, i);
        } else {
          assert forall k: nat :: LastCommitOf(steps, n, agent, k) <==> LastCommitOf(steps, i, agent, k);
        }
      } else {
        TokensStay(steps, i);
        assert forall k: nat :: LastCommitOf(steps, n, agent, k) <==> LastCommitOf(steps, i, agent, k);
      }
    }
  }

  lemma CommitToken(steps: seq<Step>, i: nat)
    requires Serial(steps) && Commits(steps, i)
    ensures TokenFrom(OutcomeOf(After(steps[..i]), steps[i]).token, steps[i].exchange, steps[i].now)
  {
    hide OutcomeOf, Serial, Pending;
    CallbackAnswer(steps, i);
  }

  lemma TokensStay(steps: seq<Step>, i: nat)
    requires i < |steps| && !Commits(steps, i)
    ensures After(steps[..i + 1]).tokens == After(steps[..i]).tokens
  {
    hide OutcomeOf;
    assert Init(steps[..i + 1]) == steps[..i] && Last(steps[..i + 1]) == steps[i];
  }

  /** A callback that is not signed, or not in time, changes nothing. */
  lemma OnlySignedCommits(steps: seq<Step>, i: nat)
    requires i < |steps| && steps[i].Callback?
    requires !steps[i].payload.signed || !InTime(steps[i].payload, steps[i].now)
    ensures !Commits(steps, i) && After(steps[..i + 1]) == After(steps[..i])
  {
    assert Init(steps[..i + 1]) == steps[..i] && Last(steps[..i + 1]) == steps[i];
  }

  // ---- The clean-up is invisible -----------------------------------------------------------------

  function WithoutCleanup(steps: seq<Step>): seq<Step> {
    if steps == [] then []
    else WithoutCleanup(Init(steps)) + if Last(steps).Cleanup? then [] else [Last(steps)]
  }

  function Outcomes(steps: seq<Step>): seq<Outcome> {
    if steps == [] then []
    else Outcomes(Init(steps)) + if Last(steps).Callback? then [OutcomeOf(After(Init(steps)), Last(steps))] else []
  }

  lemma WithoutStep(steps: seq<Step>)
    requires steps != []
    ensures Last(steps).Cleanup? ==> WithoutCleanup(steps) == WithoutCleanup(Init(steps))
    ensures !Last(steps).Cleanup? ==> WithoutCleanup(steps) != []
    ensures !Last(steps).Cleanup? ==> Init(WithoutCleanup(steps)) == WithoutCleanup(Init(steps))
    ensures !Last(steps).Cleanup? ==> Last(WithoutCleanup(steps)) == Last(steps)
  {
    if !Last(steps).Cleanup? {
      assert Init(WithoutCleanup(steps)) == WithoutCleanup(Init(steps));
    }
  }

  lemma {:induction false} SameStart(steps: seq<Step>, nonce: Nonce)
    ensures StartOf(WithoutCleanup(steps), nonce) == StartOf(steps, nonce)
  {
    if steps != [] {
      hide WithoutCleanup;
      WithoutStep(steps);
      SameStart(Init(steps), nonce);
    }
  }

  lemma {:induction false} SameBurned(steps: seq<Step>, nonce: Nonce)
    ensures Burned(WithoutCleanup(steps), nonce) == Burned(steps, nonce)
  {
    if steps != [] {
      hide WithoutCleanup, Expected;
      WithoutStep(steps);
      SameBurned(Init(steps), nonce);
      if Last(steps).Callback? {
        SameBurned(Init(steps), Last(steps).payload.nonce);
        SameStart(Init(steps), Last(steps).payload.nonce);
        SameExpected(Init(steps), Last(steps));
      }
    }
  }

  lemma SameExpected(steps: seq<Step>, step: Step)
    requires step.Callback?
    requires Burned(WithoutCleanup(steps), step.payload.nonce) == Burned(steps, step.payload.nonce)
    requires StartOf(WithoutCleanup(steps), step.payload.nonce) == StartOf(steps, step.payload.nonce)
    ensures Expected(WithoutCleanup(steps), step) == Expected(steps, step)
  {
    hide Burned, StartOf, WithoutCleanup;
  }

  lemma {:induction false} SerialWithoutCleanup(steps: seq<Step>, t: Time)
    requires Serial(steps)
    ensures Serial(WithoutCleanup(steps))
    ensures AllBefore(steps, t) ==> AllBefore(WithoutCleanup(steps), t)
  {
    if steps != [] {
      hide WithoutCleanup, StartOf;
      WithoutStep(steps);
      SerialWithoutCleanup(Init(steps), t);
      SerialWithoutCleanup(Init(steps), Last(steps).now);
      if Last(steps).Start? {
        SameStart(Init(steps), Last(steps).nonce);
      }
      AllBeforeStep(steps, t);
      if !Last(steps).Cleanup? {
        AllBeforeStep(WithoutCleanup(steps), t);
      }
    }
  }

  lemma AllBeforeStep(steps: seq<Step>, t: Time)
    requires steps != []
    ensures AllBefore(steps, t) <==> AllBefore(Init(steps), t) && Last(steps).now <= t
  {
    if AllBefore(Init(steps), t) && Last(steps).now <= t {
      forall i | 0 <= i < |steps| ensures steps[i].now <= t {
        assert i < |steps| - 1 ==> steps[i] == Init(steps)[i];
      }
    }
  }

  /** Deleting every clean-up from a history changes no callback's answer and no token. */
  lemma {:induction false} CleanupIsInvisible(steps: seq<Step>)
    requires Serial(steps)
    ensures Outcomes(WithoutCleanup(steps)) == Outcomes(steps)
    ensures After(WithoutCleanup(steps)).tokens == After(steps).tokens
  {
    if steps != [] {
      hide WithoutCleanup, OutcomeOf, Expected, Burned, StartOf, After;
      var before, step := Init(steps), Last(steps);
      WithoutStep(steps);
      CleanupIsInvisible(before);
      SerialWithoutCleanup(before, step.now);
      TableRefinesHistory(before);
      TableRefinesHistory(WithoutCleanup(before));
      if step.Callback? {
        SameStart(before, step.payload.nonce);
        SameBurned(before, step.payload.nonce);
        SameExpected(before, step);
        assert OutcomeOf(After(WithoutCleanup(before)), step) == OutcomeOf(After(before), step);
      }
      TokensAfter(steps);
      if !step.Cleanup? {
        TokensAfter(WithoutCleanup(steps));
      }
    }
  }

  lemma TokensAfter(steps: seq<Step>)
    requires steps != []
    ensures After(steps).tokens ==
      (if Last(steps).Callback? && OutcomeOf(After(Init(steps)), Last(steps)).Connected?
       then After(Init(steps)).tokens[Last(steps).agent := OutcomeOf(After(Init(steps)), Last(steps)).token]
       else After(Init(steps)).tokens)
  {
    hide OutcomeOf;
  }
}
