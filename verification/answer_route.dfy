/**
 * The answer-submission handler: validation, rate limit, two-tier
 * idempotency (transient cache, then the durable answer log), question and
 * user lookup, optimistic version check, adaptive and scoring computation,
 * then one all-or-nothing commit of the user record, the answer log and
 * both leaderboards, followed by the idempotency cache write and the rank
 * lookup.
 */
module AnswerRoute {
  import opened Options
  import opened Adaptive
  import opened Scoring
  import opened Store
  import Leaderboard

  /** The request body. An empty string stands for a missing (falsy) id or
      key; `answer` and `stateVersion` are absent when null or undefined. */
  datatype AnswerRequest = AnswerRequest(
    userId: string,
    questionId: string,
    answer: Option<int>,
    stateVersion: Option<int>,
    idempotencyKey: string)

  /** What the handler learns from outside: the clock, the rate limiter's
      verdict (which already fails open), whether the idempotency-cache read
      and the later idempotency-cache write each succeed (each swallows its
      own failure), whether the database transaction commits, and whether
      the rank queries succeed. */
  datatype AnswerEnv = AnswerEnv(
    now: int,
    rateAllowed: bool,
    cacheReadOk: bool,
    cacheWriteOk: bool,
    commitOk: bool,
    ranksOk: bool)

  datatype AnswerResponse =
    | Accepted(
        correct: bool,
        correctAnswer: int,
        newDifficulty: int,
        newStreak: int,
        maxStreak: int,
        scoreDelta: int,
        totalScore: int,
        momentum: int,
        stateVersion: int,
        streakReset: bool,
        inactivityDecay: bool,
        ranks: Ranks)
    | Duplicate(
        correct: bool,
        newDifficulty: int,
        newStreak: int,
        scoreDelta: int,
        totalScore: int,
        stateVersion: int,
        ranks: Ranks)
    | Rejected(status: Status)

  datatype AnswerOutcome = AnswerOutcome(response: AnswerResponse, store: Store)

  /** userId, questionId and the idempotency key must be truthy; the answer
      must be neither null nor undefined, so 0 is accepted. */
  predicate HasRequiredFields(req: AnswerRequest)
  {
    req.userId != "" && req.questionId != "" && req.answer.Some? && req.idempotencyKey != ""
  }

  /** A truthy expected version that differs from the stored one. An absent
      version or 0 skips the check. */
  predicate VersionMismatch(expected: Option<int>, stored: int)
  {
    expected.Some? && expected.value != 0 && expected.value != stored
  }

  /** The transient cache answers only when the read succeeds. */
  predicate CacheHit(st: Store, key: string, readOk: bool)
  {
    readOk && key in st.idempotencyCache
  }

  /** The request passes validation and the rate limit and is new to both
      idempotency tiers, so it goes on to the question lookup. */
  predicate ReachesLookup(st: Store, req: AnswerRequest, env: AnswerEnv)
  {
    && HasRequiredFields(req)
    && env.rateAllowed
    && !CacheHit(st, req.idempotencyKey, env.cacheReadOk)
    && req.idempotencyKey !in st.answerLogs
  }

  datatype Ranks = Ranks(score: int, streak: int)

  /** The user's score and streak ranks; a failed rank query yields 0 for both. */
  function LeaderboardRanks(st: Store, uid: UserId, queryOk: bool): (r: Ranks)
    ensures queryOk ==> r.score >= 1 && r.streak >= 1
    ensures queryOk && uid in st.scoreBoard ==> r.score <= |st.scoreBoard|
    ensures queryOk && uid in st.streakBoard ==> r.streak <= |st.streakBoard|
    ensures !queryOk ==> r == Ranks(0, 0)
    ensures queryOk ==>
      r == Ranks(Leaderboard.RankIn(st.scoreBoard, uid), Leaderboard.RankIn(st.streakBoard, uid))
  {
    if queryOk then
      Ranks(Leaderboard.RankIn(st.scoreBoard, uid), Leaderboard.RankIn(st.streakBoard, uid))
    else Ranks(0, 0)
  }

  /** The reported score rank is 1 exactly when nobody on the score board
      is strictly ahead, and likewise for the streak rank. */
  lemma ReportedRankOneIffTop(st: Store, uid: UserId)
    requires uid in st.scoreBoard && uid in st.streakBoard
    ensures LeaderboardRanks(st, uid, true).score == 1 <==>
      forall u :: u in st.scoreBoard ==> st.scoreBoard[u] <= st.scoreBoard[uid]
    ensures LeaderboardRanks(st, uid, true).streak == 1 <==>
      forall u :: u in st.streakBoard ==> st.streakBoard[u] <= st.streakBoard[uid]
  {
    Leaderboard.RankOneIffTop(st.scoreBoard, uid);
    Leaderboard.RankOneIffTop(st.streakBoard, uid);
  }

  /** The user record after an accepted answer at `now`. */
  function CommittedUser(u: UserState, r: AdaptiveResult, isCorrect: bool, scoreDelta: int,
                         questionId: string, now: int): UserState
  {
    u.(adaptive := Apply(r, now),
       totalScore := u.totalScore + scoreDelta,
       totalAnswered := u.totalAnswered + 1,
       totalCorrect := if isCorrect then u.totalCorrect + 1 else u.totalCorrect,
       stateVersion := u.stateVersion + 1,
       lastQuestionId := Some(questionId))
  }

  /** The accepting path: compute, commit all four writes, cache the outcome,
      read the ranks. */
  function CommitAnswer(st: Store, req: AnswerRequest, env: AnswerEnv, q: Question, u: UserState): (o: AnswerOutcome)
    requires req.answer.Some?
    ensures o.response.Accepted?
    ensures o.store.answerLogs.Keys == st.answerLogs.Keys + {req.idempotencyKey}
  {
    var uid := req.userId;
    var key := req.idempotencyKey;
    var isCorrect := req.answer.value == q.correctIndex;
    var r := ComputeNextState(u.adaptive, isCorrect, env.now);
    var delta := CalculateScoreDelta(q.difficulty, r.newStreak, isCorrect);
    var u' := CommittedUser(u, r, isCorrect, delta, req.questionId, env.now);
    var log := AnswerLog(uid, req.questionId, q.difficulty, req.answer.value, isCorrect,
                         delta, r.newStreak, env.now);
    var committed := st.(states := st.states[uid := u'],
                         answerLogs := st.answerLogs[key := log],
                         scoreBoard := st.scoreBoard[uid := u'.totalScore],
                         streakBoard := st.streakBoard[uid := r.newMaxStreak]);
    var remembered := CachedOutcome(isCorrect, r.newDifficulty, r.newStreak, delta,
                                    u'.totalScore, u'.stateVersion);
    var after :=
      if env.cacheWriteOk
      then committed.(idempotencyCache := committed.idempotencyCache[key := remembered])
      else committed;
    AnswerOutcome(
      Accepted(isCorrect, q.correctIndex, r.newDifficulty, r.newStreak, r.newMaxStreak, delta,
               u'.totalScore, r.newMomentum, u'.stateVersion, r.streakReset, r.inactivityDecay,
               LeaderboardRanks(after, uid, env.ranksOk)),
      after)
  }

  function SubmitAnswer(st: Store, req: AnswerRequest, env: AnswerEnv): (o: AnswerOutcome)
    ensures o.response == Rejected(BadRequest) <==> !HasRequiredFields(req)
    ensures o.response == Rejected(RateLimited) <==> HasRequiredFields(req) && !env.rateAllowed
    ensures o.response.Duplicate? <==>
      && HasRequiredFields(req) && env.rateAllowed
      && (CacheHit(st, req.idempotencyKey, env.cacheReadOk) || req.idempotencyKey in st.answerLogs)
    ensures o.response == Rejected(NotFound) <==>
      ReachesLookup(st, req, env) && (req.questionId !in st.questions || req.userId !in st.states)
    ensures o.response == Rejected(Conflict) <==>
      && ReachesLookup(st, req, env) && req.questionId in st.questions && req.userId in st.states
      && VersionMismatch(req.stateVersion, st.states[req.userId].stateVersion)
    ensures o.response == Rejected(Internal) <==>
      && ReachesLookup(st, req, env) && req.questionId in st.questions && req.userId in st.states
      && !VersionMismatch(req.stateVersion, st.states[req.userId].stateVersion)
      && !env.commitOk
    ensures o.response.Accepted? <==>
      && ReachesLookup(st, req, env) && req.questionId in st.questions && req.userId in st.states
      && !VersionMismatch(req.stateVersion, st.states[req.userId].stateVersion)
      && env.commitOk
    ensures !o.response.Accepted? ==> o.store == st
    ensures o.response.Accepted? ==>
      && req.idempotencyKey !in st.answerLogs
      && o.store.answerLogs.Keys == st.answerLogs.Keys + {req.idempotencyKey}
  {
    if !HasRequiredFields(req) then AnswerOutcome(Rejected(BadRequest), st)
    else if !env.rateAllowed then AnswerOutcome(Rejected(RateLimited), st)
    else
      var key := req.idempotencyKey;
      var uid := req.userId;
      if CacheHit(st, key, env.cacheReadOk) then
        var c := st.idempotencyCache[key];
        AnswerOutcome(
          Duplicate(c.correct, c.newDifficulty, c.newStreak, c.scoreDelta, c.totalScore,
                    c.stateVersion, LeaderboardRanks(st, uid, env.ranksOk)),
          st)
      else if key in st.answerLogs then
        var log := st.answerLogs[key];
        var found := uid in st.states;
        AnswerOutcome(
          Duplicate(log.correct,
                    if found then st.states[uid].adaptive.currentDifficulty else 1,
                    if found then st.states[uid].adaptive.streak else 0,
                    log.scoreDelta,
                    if found then st.states[uid].totalScore else 0,
                    if found then st.states[uid].stateVersion else 1,
                    LeaderboardRanks(st, uid, env.ranksOk)),
          st)
      else if req.questionId !in st.questions then AnswerOutcome(Rejected(NotFound), st)
      else if uid !in st.states then AnswerOutcome(Rejected(NotFound), st)
      else
        var q := st.questions[req.questionId];
        var u := st.states[uid];
        if VersionMismatch(req.stateVersion, u.stateVersion) then AnswerOutcome(Rejected(Conflict), st)
        else if !env.commitOk then AnswerOutcome(Rejected(Internal), st)
        else CommitAnswer(st, req, env, q, u)
  }

  // ---------------------------------------------------------------------
  // The two idempotency tiers
  // ---------------------------------------------------------------------

  /** A cache hit replays the remembered outcome verbatim and writes nothing. */
  lemma CacheHitReplaysOutcome(st: Store, req: AnswerRequest, env: AnswerEnv)
    requires HasRequiredFields(req) && env.rateAllowed
    requires CacheHit(st, req.idempotencyKey, env.cacheReadOk)
    ensures var c := st.idempotencyCache[req.idempotencyKey];
      SubmitAnswer(st, req, env) ==
        AnswerOutcome(Duplicate(c.correct, c.newDifficulty, c.newStreak, c.scoreDelta,
                                c.totalScore, c.stateVersion,
                                LeaderboardRanks(st, req.userId, env.ranksOk)),
                      st)
  {
  }

  /** On a cache miss, a logged key replays the logged correctness and points
      together with the user's current record, and writes nothing. When the
      requester has no record, the record's fields fall back to difficulty 1,
      streak 0, score 0 and version 1. */
  lemma LogHitReplaysLoggedAnswer(st: Store, req: AnswerRequest, env: AnswerEnv)
    requires HasRequiredFields(req) && env.rateAllowed
    requires !CacheHit(st, req.idempotencyKey, env.cacheReadOk)
    requires req.idempotencyKey in st.answerLogs
    ensures var log := st.answerLogs[req.idempotencyKey];
      var ranks := LeaderboardRanks(st, req.userId, env.ranksOk);
      SubmitAnswer(st, req, env) ==
        if req.userId in st.states then
          var u := st.states[req.userId];
          AnswerOutcome(Duplicate(log.correct, u.adaptive.currentDifficulty, u.adaptive.streak,
                                  log.scoreDelta, u.totalScore, u.stateVersion, ranks),
                        st)
        else
          AnswerOutcome(Duplicate(log.correct, 1, 0, log.scoreDelta, 0, 1, ranks), st)
  {
  }

  // ---------------------------------------------------------------------
  // The commit
  // ---------------------------------------------------------------------

  /** An accepted answer went through every check, and its commit moved the
      user record, the answer log and both leaderboards together: the record
      takes the adaptive result, version and answered count rise by one, the
      correct count rises iff correct, the score rises by the points for the
      served difficulty and the post-answer streak, exactly one log entry is
      added under the key, both leaderboard entries mirror the new record,
      the record remembers the question as the last one served, the outcome
      is cached under the key when the cache write succeeds, and nothing else
      changes. Correctness is exactly answer == correctIndex. */
  lemma AcceptedAnswerCommitsTogether(st: Store, req: AnswerRequest, env: AnswerEnv)
    requires SubmitAnswer(st, req, env).response.Accepted?
    ensures ReachesLookup(st, req, env) && env.commitOk
    ensures req.questionId in st.questions && req.userId in st.states
    ensures !VersionMismatch(req.stateVersion, st.states[req.userId].stateVersion)
    ensures
      var o := SubmitAnswer(st, req, env);
      var uid, key := req.userId, req.idempotencyKey;
      var q, u := st.questions[req.questionId], st.states[uid];
      var isCorrect := req.answer.value == q.correctIndex;
      var r := ComputeNextState(u.adaptive, isCorrect, env.now);
      var delta := CalculateScoreDelta(q.difficulty, r.newStreak, isCorrect);
      && uid in o.store.states
      && var u' := o.store.states[uid];
      && o.response.correct == isCorrect
      && u'.adaptive == Apply(r, env.now)
      && u'.stateVersion == u.stateVersion + 1
      && u'.totalAnswered == u.totalAnswered + 1
      && u'.totalCorrect == u.totalCorrect + (if isCorrect then 1 else 0)
      && u'.totalScore == u.totalScore + delta
      && u'.sessionId == u.sessionId
      && o.store.answerLogs == st.answerLogs[key := AnswerLog(uid, req.questionId, q.difficulty,
                                   req.answer.value, isCorrect, delta, r.newStreak, env.now)]
      && |o.store.answerLogs| == |st.answerLogs| + 1
      && o.store.scoreBoard == st.scoreBoard[uid := u'.totalScore]
      && o.store.streakBoard == st.streakBoard[uid := u'.adaptive.maxStreak]
      && o.store.states.Keys == st.states.Keys
      && (forall other :: other in st.states && other != uid ==> o.store.states[other] == st.states[other])
      && u'.lastQuestionId == Some(req.questionId)
      && o.store.idempotencyCache ==
           (if env.cacheWriteOk
            then st.idempotencyCache[key := CachedOutcome(isCorrect, r.newDifficulty, r.newStreak,
                                                          delta, u'.totalScore, u'.stateVersion)]
            else st.idempotencyCache)
      && o.store.users == st.users && o.store.questions == st.questions
      && o.response == Accepted(isCorrect, q.correctIndex, r.newDifficulty, r.newStreak,
                                r.newMaxStreak, delta, u'.totalScore, r.newMomentum,
                                u'.stateVersion, r.streakReset, r.inactivityDecay,
                                LeaderboardRanks(o.store, uid, env.ranksOk))
  {
  }

  /** The commit keeps the store invariant. */
  lemma CommitAnswerPreservesValid(st: Store, req: AnswerRequest, env: AnswerEnv, q: Question, u: UserState)
    requires ValidStore(st)
    requires req.answer.Some? && req.userId in st.states && u == st.states[req.userId]
    requires ValidQuestion(q) && req.idempotencyKey !in st.answerLogs
    ensures ValidStore(CommitAnswer(st, req, env, q, u).store)
  {
    var uid, key := req.userId, req.idempotencyKey;
    var isCorrect := req.answer.value == q.correctIndex;
    ComputeNextStatePreservesValid(u.adaptive, isCorrect, env.now);
    var r := ComputeNextState(u.adaptive, isCorrect, env.now);
    ScoreDeltaBounds(q.difficulty, r.newStreak, isCorrect);
    var delta := CalculateScoreDelta(q.difficulty, r.newStreak, isCorrect);
    var u' := CommittedUser(u, r, isCorrect, delta, req.questionId, env.now);
    assert ValidUser(u');
    UpdateUserKeepsValid(st, uid, u');
    var st' := CommitAnswer(st, req, env, q, u).store;
    assert CacheAgreesWithLog(st') by {
      forall k | k in st'.idempotencyCache
        ensures k in st'.answerLogs
        ensures st'.idempotencyCache[k].correct == st'.answerLogs[k].correct
        ensures st'.idempotencyCache[k].scoreDelta == st'.answerLogs[k].scoreDelta
      {
        if k != key {
          assert k in st.idempotencyCache;
        }
      }
    }
  }

  /** Every handler path keeps the store invariant. */
  lemma SubmitAnswerPreservesValid(st: Store, req: AnswerRequest, env: AnswerEnv)
    requires ValidStore(st)
    ensures ValidStore(SubmitAnswer(st, req, env).store)
  {
    if SubmitAnswer(st, req, env).response.Accepted? {
      AcceptedAnswerCommitsTogether(st, req, env);
      var q, u := st.questions[req.questionId], st.states[req.userId];
      CommitAnswerPreservesValid(st, req, env, q, u);
    }
  }

  // ---------------------------------------------------------------------
  // Retries and stale versions
  // ---------------------------------------------------------------------

  /** Exactly-once effect: an immediate retry of an accepted submission,
      whether or not the cache read or write fails on either call, writes
      nothing and replays the same correctness, difficulty, streak, points,
      total score and version. */
  lemma RetryReplaysAcceptedOutcome(st: Store, req: AnswerRequest, env1: AnswerEnv, env2: AnswerEnv)
    requires ValidStore(st)
    requires SubmitAnswer(st, req, env1).response.Accepted?
    requires env2.rateAllowed
    ensures var o1 := SubmitAnswer(st, req, env1);
      var o2 := SubmitAnswer(o1.store, req, env2);
      && o2.store == o1.store
      && o2.response == Duplicate(o1.response.correct, o1.response.newDifficulty,
                                  o1.response.newStreak, o1.response.scoreDelta,
                                  o1.response.totalScore, o1.response.stateVersion,
                                  LeaderboardRanks(o1.store, req.userId, env2.ranksOk))
  {
    AcceptedAnswerCommitsTogether(st, req, env1);
    var key := req.idempotencyKey;
    if !env1.cacheWriteOk && env2.cacheReadOk {
      assert key !in st.idempotencyCache;
    }
  }

  /** A retry that comes after a later accepted answer and misses the cache
      (a failed read, or an expired entry) is answered from the log tier: it
      reports the first answer's correctness and points, but the difficulty,
      streak, total score and version of the user's current record, which
      are those of the later answer. */
  lemma LaterRetryReportsCurrentRecord(
    st: Store, req1: AnswerRequest, env1: AnswerEnv, req2: AnswerRequest, env2: AnswerEnv,
    env3: AnswerEnv)
    requires SubmitAnswer(st, req1, env1).response.Accepted?
    requires req2.userId == req1.userId
    requires SubmitAnswer(SubmitAnswer(st, req1, env1).store, req2, env2).response.Accepted?
    requires env3.rateAllowed
    requires !CacheHit(SubmitAnswer(SubmitAnswer(st, req1, env1).store, req2, env2).store,
                       req1.idempotencyKey, env3.cacheReadOk)
    ensures var o1 := SubmitAnswer(st, req1, env1);
      var o2 := SubmitAnswer(o1.store, req2, env2);
      SubmitAnswer(o2.store, req1, env3) ==
        AnswerOutcome(Duplicate(o1.response.correct, o2.response.newDifficulty,
                                o2.response.newStreak, o1.response.scoreDelta,
                                o2.response.totalScore, o2.response.stateVersion,
                                LeaderboardRanks(o2.store, req1.userId, env3.ranksOk)),
                      o2.store)
  {
    var o1 := SubmitAnswer(st, req1, env1);
    AcceptedAnswerCommitsTogether(st, req1, env1);
    AcceptedAnswerCommitsTogether(o1.store, req2, env2);
    var o2 := SubmitAnswer(o1.store, req2, env2);
    assert req1.idempotencyKey != req2.idempotencyKey;
    assert o2.store.answerLogs[req1.idempotencyKey] == o1.store.answerLogs[req1.idempotencyKey];
    LogHitReplaysLoggedAnswer(o2.store, req1, env3);
  }

  /** Two submissions carrying the same expected version: once the first is
      accepted, the second (a different key) is refused with a conflict and
      writes nothing. */
  lemma SameVersionSecondSubmissionConflicts(
    st: Store, req1: AnswerRequest, env1: AnswerEnv, req2: AnswerRequest, env2: AnswerEnv)
    requires req1.userId in st.states
    requires SubmitAnswer(st, req1, env1).response.Accepted?
    requires req2.userId == req1.userId
    requires st.states[req1.userId].stateVersion != 0
    requires req2.stateVersion == Some(st.states[req1.userId].stateVersion)
    requires ReachesLookup(SubmitAnswer(st, req1, env1).store, req2, env2)
    requires req2.questionId in st.questions
    ensures var o1 := SubmitAnswer(st, req1, env1);
      SubmitAnswer(o1.store, req2, env2) == AnswerOutcome(Rejected(Conflict), o1.store)
  {
    AcceptedAnswerCommitsTogether(st, req1, env1);
  }
}
