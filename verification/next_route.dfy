/**
 * The question-fetch handler, limited to its writes to the user record: an
 * inactivity decay of the streak (a second writer of the adaptive state,
 * besides the answer handler) and the choice and persistence of the session
 * id. The question itself comes from an outside generator; only whether one
 * was available is modelled.
 */
module NextRoute {
  import opened Options
  import opened Adaptive
  import opened Store

  /** Query parameters; an empty user id stands for a missing one. */
  datatype NextRequest = NextRequest(userId: string, sessionId: Option<string>)

  /** The clock, the rate limiter's verdict, the id a fresh uuid would take,
      and whether the question generator produced a question. */
  datatype NextEnv = NextEnv(now: int, rateAllowed: bool, freshSessionId: string, questionAvailable: bool)

  datatype NextResponse =
    | Served(
        sessionId: string,
        stateVersion: int,
        currentScore: int,
        currentStreak: int,
        maxStreak: int,
        currentDifficulty: int,
        momentum: int)
    | NextRejected(status: Status)

  datatype NextOutcome = NextOutcome(response: NextResponse, store: Store)

  /** This handler decays only a positive streak after 30 idle minutes. */
  predicate IdleDecayDue(u: UserState, now: int)
  {
    Inactive(u.adaptive.lastAnswerAt, now) && u.adaptive.streak > 0
  }

  /** The record after the fetch-time decay: streak 0, momentum down by 0.2
      (floor 0), version up by one, and every other field, lastAnswerAt
      included, untouched. */
  function ApplyIdleDecay(u: UserState, now: int): (u': UserState)
    ensures !IdleDecayDue(u, now) ==> u' == u
    ensures IdleDecayDue(u, now) ==>
      && u'.adaptive.streak == 0
      && u'.adaptive.momentum == DecayMomentum(u.adaptive.momentum)
      && u'.stateVersion == u.stateVersion + 1
      && u'.adaptive.(streak := u.adaptive.streak, momentum := u.adaptive.momentum) == u.adaptive
      && u'.(adaptive := u.adaptive, stateVersion := u.stateVersion) == u
  {
    if IdleDecayDue(u, now) then
      u.(adaptive := u.adaptive.(streak := 0, momentum := DecayMomentum(u.adaptive.momentum)),
         stateVersion := u.stateVersion + 1)
    else u
  }

  predicate Truthy(s: Option<string>)
  {
    s.Some? && s.value != ""
  }

  /** The request's session id, else the stored one, else a fresh one. */
  function ChooseSessionId(requested: Option<string>, stored: Option<string>, freshId: string): (r: string)
    ensures Truthy(requested) ==> r == requested.value
    ensures !Truthy(requested) && Truthy(stored) ==> r == stored.value
    ensures !Truthy(requested) && !Truthy(stored) ==> r == freshId
  {
    if Truthy(requested) then requested.value
    else if Truthy(stored) then stored.value
    else freshId
  }

  /** The session id is written only when it differs from the stored one. */
  function PersistSession(u: UserState, active: string): (u': UserState)
    ensures u'.sessionId == Some(active)
    ensures u' == u <==> u.sessionId == Some(active)
    ensures u'.(sessionId := u.sessionId) == u
  {
    if Some(active) != u.sessionId then u.(sessionId := Some(active)) else u
  }

  function FetchNextQuestion(st: Store, req: NextRequest, env: NextEnv): (o: NextOutcome)
    ensures o.response == NextRejected(BadRequest) <==> req.userId == ""
    ensures o.response == NextRejected(RateLimited) <==> req.userId != "" && !env.rateAllowed
    ensures o.response == NextRejected(NotFound) <==>
      req.userId != "" && env.rateAllowed && req.userId !in st.states
    ensures o.store != st ==> req.userId in st.states
    ensures o.store.users == st.users && o.store.questions == st.questions
    ensures o.store.answerLogs == st.answerLogs && o.store.idempotencyCache == st.idempotencyCache
    ensures o.store.scoreBoard == st.scoreBoard && o.store.streakBoard == st.streakBoard
  {
    if req.userId == "" then NextOutcome(NextRejected(BadRequest), st)
    else if !env.rateAllowed then NextOutcome(NextRejected(RateLimited), st)
    else if req.userId !in st.states then NextOutcome(NextRejected(NotFound), st)
    else
      var u := ApplyIdleDecay(st.states[req.userId], env.now);
      var active := ChooseSessionId(req.sessionId, u.sessionId, env.freshSessionId);
      var st' := st.(states := st.states[req.userId := PersistSession(u, active)]);
      if !env.questionAvailable then NextOutcome(NextRejected(Unavailable), st')
      else
        NextOutcome(
          Served(active, u.stateVersion, u.totalScore, u.adaptive.streak, u.adaptive.maxStreak,
                 u.adaptive.currentDifficulty, u.adaptive.momentum),
          st')
  }

  /** A fetch for a stored user writes the decayed record with the chosen
      session id (before the generator runs, so a 503 keeps the writes) and
      reports the chosen session and the post-decay version, score, streak,
      max streak, difficulty and momentum. */
  lemma FetchWritesDecayedRecord(st: Store, req: NextRequest, env: NextEnv)
    requires req.userId != "" && env.rateAllowed && req.userId in st.states
    ensures var o := FetchNextQuestion(st, req, env);
      var u := ApplyIdleDecay(st.states[req.userId], env.now);
      var active := ChooseSessionId(req.sessionId, u.sessionId, env.freshSessionId);
      && o.store.states == st.states[req.userId := PersistSession(u, active)]
      && (o.response.Served? || o.response == NextRejected(Unavailable))
      && (o.response.Served? <==> env.questionAvailable)
      && (o.response.Served? ==>
            o.response == Served(active, u.stateVersion, u.totalScore, u.adaptive.streak,
                                 u.adaptive.maxStreak, u.adaptive.currentDifficulty,
                                 u.adaptive.momentum))
  {
  }

  /** Since the fetch leaves lastAnswerAt alone, an answer after a fetch-time
      decay passes the same inactivity test and loses momentum a second time. */
  lemma FetchThenAnswerDecaysTwice(u: UserState, t1: int, t2: int, isCorrect: bool)
    requires IdleDecayDue(u, t1) && t1 <= t2
    ensures var r := ComputeNextState(ApplyIdleDecay(u, t1).adaptive, isCorrect, t2);
      && r.inactivityDecay
      && r.newMomentum == StepMomentum(DecayMomentum(DecayMomentum(u.adaptive.momentum)), isCorrect)
  {
  }

  /** Momentum 0.8, streak 3, last answer at time 0; a fetch at 31 minutes
      and a correct answer at 32 minutes leave momentum 0.55, where the same
      answer without the fetch would leave 0.75. */
  lemma ScenarioFetchThenAnswer()
    ensures var u := UserState(AdaptiveState(4, 800, 3, 3, [true, true, true], Some(0)),
                               90, 3, 3, 4, None, None);
      var t1, t2 := 31 * 60 * 1000, 32 * 60 * 1000;
      && ComputeNextState(ApplyIdleDecay(u, t1).adaptive, true, t2).newMomentum == 550
      && ComputeNextState(u.adaptive, true, t2).newMomentum == 750
  {
  }

  /** Once a session id is stored, a later fetch without one reuses it and
      writes no session change. */
  lemma SessionIdSticky(st: Store, req: NextRequest, env1: NextEnv, env2: NextEnv)
    requires req.userId != "" && env1.rateAllowed && env2.rateAllowed && req.userId in st.states
    requires Truthy(req.sessionId) || env1.freshSessionId != ""
    ensures var st1 := FetchNextQuestion(st, req, env1).store;
      var u1 := st1.states[req.userId];
      && u1.sessionId.Some?
      && ChooseSessionId(None, u1.sessionId, env2.freshSessionId) == u1.sessionId.value
      && PersistSession(ApplyIdleDecay(u1, env2.now), u1.sessionId.value) == ApplyIdleDecay(u1, env2.now)
  {
    FetchWritesDecayedRecord(st, req, env1);
  }

  /** The fetch keeps the store invariant. */
  lemma FetchPreservesValid(st: Store, req: NextRequest, env: NextEnv)
    requires ValidStore(st)
    ensures ValidStore(FetchNextQuestion(st, req, env).store)
  {
    if req.userId != "" && env.rateAllowed && req.userId in st.states {
      FetchWritesDecayedRecord(st, req, env);
      var u := ApplyIdleDecay(st.states[req.userId], env.now);
      var active := ChooseSessionId(req.sessionId, u.sessionId, env.freshSessionId);
      var u' := PersistSession(u, active);
      assert ValidUser(u');
      UpdateUserKeepsValid(st, req.userId, u');
      assert st.scoreBoard[req.userId := u'.totalScore] == st.scoreBoard;
      assert st.streakBoard[req.userId := u'.adaptive.maxStreak] == st.streakBoard;
    }
  }
}
