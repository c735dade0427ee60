/**
 * The persistent records the quiz handlers read and write, held as one
 * immutable value: each handler maps a store to a response and a new store.
 */
module Store {
  import opened Options
  import opened Adaptive

  type UserId = string

  /** A user's stored record: the adaptive state plus counters and bookkeeping. */
  datatype UserState = UserState(
    adaptive: AdaptiveState,
    totalScore: int,
    totalAnswered: int,
    totalCorrect: int,
    stateVersion: int,
    sessionId: Option<string>,
    lastQuestionId: Option<string>)

  /** The two question fields the handlers use. */
  datatype Question = Question(difficulty: int, correctIndex: int)

  /** One accepted submission; the log is keyed by its idempotency key. */
  datatype AnswerLog = AnswerLog(
    userId: UserId,
    questionId: string,
    difficulty: int,
    answer: int,
    correct: bool,
    scoreDelta: int,
    streakAtAnswer: int,
    answeredAt: int)

  /** The outcome remembered under an idempotency key in the transient cache. */
  datatype CachedOutcome = CachedOutcome(
    correct: bool,
    newDifficulty: int,
    newStreak: int,
    scoreDelta: int,
    totalScore: int,
    stateVersion: int)

  datatype Store = Store(
    users: map<string, UserId>,
    states: map<UserId, UserState>,
    questions: map<string, Question>,
    answerLogs: map<string, AnswerLog>,
    scoreBoard: map<UserId, int>,
    streakBoard: map<UserId, int>,
    idempotencyCache: map<string, CachedOutcome>)

  /** Error responses: 400, 404, 409, 429, 500 and 503 in that order. */
  datatype Status = BadRequest | NotFound | Conflict | RateLimited | Internal | Unavailable

  predicate ValidUser(u: UserState)
  {
    && ValidAdaptive(u.adaptive)
    && 0 <= u.totalCorrect <= u.totalAnswered
    && u.totalScore >= 0
    && u.stateVersion >= 1
  }

  predicate ValidQuestion(q: Question)
  {
    MinDifficulty <= q.difficulty <= MaxDifficulty
  }

  /** Every stored user is valid. */
  ghost predicate UsersValid(st: Store)
  {
    forall uid :: uid in st.states ==> ValidUser(st.states[uid])
  }

  /** Each stored user's leaderboard entries mirror its totalScore and maxStreak. */
  ghost predicate BoardsMirrorUsers(st: Store)
  {
    forall uid :: uid in st.states ==>
      && uid in st.scoreBoard && st.scoreBoard[uid] == st.states[uid].totalScore
      && uid in st.streakBoard && st.streakBoard[uid] == st.states[uid].adaptive.maxStreak
  }

  /** Every registered name points at a stored user. */
  ghost predicate NamesResolve(st: Store)
  {
    forall name :: name in st.users ==> st.users[name] in st.states
  }

  ghost predicate QuestionsValid(st: Store)
  {
    forall qid :: qid in st.questions ==> ValidQuestion(st.questions[qid])
  }

  /** Every cached outcome agrees with the logged answer under the same key. */
  ghost predicate CacheAgreesWithLog(st: Store)
  {
    forall key :: key in st.idempotencyCache ==>
      && key in st.answerLogs
      && st.idempotencyCache[key].correct == st.answerLogs[key].correct
      && st.idempotencyCache[key].scoreDelta == st.answerLogs[key].scoreDelta
  }

  /** What every handler keeps. */
  ghost predicate ValidStore(st: Store)
  {
    && UsersValid(st)
    && BoardsMirrorUsers(st)
    && NamesResolve(st)
    && QuestionsValid(st)
    && CacheAgreesWithLog(st)
  }

  /** Replacing one stored user by a valid record and setting its two
      leaderboard entries to match keeps the first three parts of the
      invariant. */
  lemma UpdateUserKeepsValid(st: Store, uid: UserId, u': UserState)
    requires UsersValid(st) && BoardsMirrorUsers(st) && NamesResolve(st)
    requires ValidUser(u')
    ensures var st' := st.(states := st.states[uid := u'],
                           scoreBoard := st.scoreBoard[uid := u'.totalScore],
                           streakBoard := st.streakBoard[uid := u'.adaptive.maxStreak]);
      UsersValid(st') && BoardsMirrorUsers(st') && NamesResolve(st')
  {
  }
}
