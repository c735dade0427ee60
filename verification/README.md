# BrainBolt adaptive quiz core, in Dafny

This project models the per-user adaptive quiz state machine of BrainBolt and the handlers that read and write it:

- `adaptive.dfy` (module `Adaptive`): `computeNextState`, the momentum-based hysteresis engine. It runs inactivity decay, the streak update, the momentum update, the rolling window of the last 10 answers, window accuracy and the gated difficulty change, in that order. The module also holds the difficulty labels.
- `scoring.dfy` (module `Scoring`): the streak-capped score delta, the accuracy percentage and the per-difficulty histogram.
- `leaderboard.dfy` (module `Leaderboard`): the rank rule, one plus the number of entries strictly greater than the user's own.
- `store.dfy` (module `Store`): the persistent records as one immutable value. It holds user records, the answer log keyed by idempotency key, the two leaderboards and the idempotency cache. It also defines the store invariant every handler keeps.
- `answer_route.dfy` (module `AnswerRoute`): the answer submission handler. Its steps are validation, the rate limit, two-tier idempotency, question and user lookup, the version check, compute, one all-or-nothing commit, then caching and ranks.
- `next_route.dfy` (module `NextRoute`): the question-fetch handler's writes. These are its own inactivity decay, the `stateVersion` bump and the choice of session id.
- `register_route.dfy` (module `RegisterRoute`): username validation and normalisation, duplicate rejection, and the initial record.
- `options.dfy` (module `Options`): a small optional-value type.

Each handler is a pure function from a store, a request and an environment to a response and a new store. The environment carries everything that comes from outside: the clock, the rate limiter's verdict, whether each idempotency-cache read and write succeeds, whether the transaction commits, whether the rank queries succeed, the generated session and user ids, and whether the question generator produced a question.

Numbers are exact integers:
- Momentum is in thousandths (0..1000). The steps are +150 and -300, the decay is -200 and the threshold is 600.
- The streak multiplier is in tenths, so the score `round(d*10*min(1+0.1s, 3))` is `d*min(10+s, 30)`.
- Accuracy is in hundredths of a percent, rounded half up.
- Time is integer milliseconds.

## Model

| member | source | states |
|---|---|---|
| `Adaptive.Inactive` | src/lib/adaptive.ts:67-69 | An answer counts as after inactivity iff an answer time is recorded and more than 30 minutes (1,800,000 ms) have passed since it; exactly 30 minutes is not enough. |
| `Adaptive.StreakBeforeAnswer` | src/lib/adaptive.ts:67-72 | The streak an answer builds on is 0 after inactivity and the stored streak otherwise. |
| `Adaptive.MomentumBeforeAnswer` | src/lib/adaptive.ts:67-72 | The momentum an answer steps from is the decayed momentum after inactivity and the stored momentum otherwise. |
| `Adaptive.ComputeNextState` | src/lib/adaptive.ts:58-134 | The decay flag is set iff an answer time is recorded and more than 30 minutes have passed. Momentum is one capped/floored step from the post-decay momentum. The window is the slid window. A correct answer extends the post-decay streak with no reset. A wrong answer zeroes it, and `streakReset` holds iff the post-decay streak was positive. `maxStreak` moves only on a correct answer. |
| `Adaptive.DecayMomentum` | src/lib/adaptive.ts:71 | Decayed momentum is max(0, m-0.2): exactly 0.2 lower when the input is at least 0.2, and 0 below that. |
| `Adaptive.StepMomentum` | src/lib/adaptive.ts:89-93 | A correct answer adds 0.15 up to 0.85 and gives 1 from there. A wrong answer subtracts 0.3 from 0.3 upward and gives 0 below. Momentum in [0,1] stays in [0,1]. |
| `Adaptive.CountTrue` | src/lib/adaptive.ts:99-102 | The count of correct answers is at most the window length; it equals the length iff every entry is correct, and is 0 iff none is. |
| `Adaptive.SlideWindow` | src/lib/adaptive.ts:96 | The new window has length min(10, old+1), is the tail of old ++ [answer] (oldest evicted first), and ends with the answer. |
| `Adaptive.SlideAllKeepsSuffix` | src/lib/adaptive.ts:96 | Feeding any run of answers through the window leaves exactly the last min(10, total) entries of the whole history. |
| `Adaptive.WrongAnswerLowersDifficulty` | src/lib/adaptive.ts:119-123 | A wrong answer gives difficulty max(1, d-1) whatever the momentum or streak, and leaves `maxStreak` unchanged. |
| `Adaptive.WindowAccurate` | src/lib/adaptive.ts:98-102 | Window accuracy of at least 60%: the window is non-empty and at least 6 in 10 of its entries are correct. An empty window has accuracy 0 and never qualifies. |
| `Adaptive.RiseGate` | src/lib/adaptive.ts:112-116 | The gate for a rise: momentum at least 0.6, a streak of at least 2, and window accuracy of at least 60%. |
| `Adaptive.CorrectAnswerRaisesOnlyThroughGate` | src/lib/adaptive.ts:105-118 | A correct answer below level 10 keeps d or gives d+1. It gives d+1 iff the post-update momentum is >= 0.6, the streak is >= 2 and the window accuracy is >= 60%. |
| `Adaptive.DifficultyMovesByAtMostOne` | src/lib/adaptive.ts:105-123 | From [1,10] difficulty stays in [1,10] and moves by at most one level. It never rises on a wrong answer and never falls on a correct one. |
| `Adaptive.ComputeNextStatePreservesValid` | src/lib/adaptive.ts:63-133 | A valid state (difficulty in [1,10], momentum in [0,1], 0 <= streak <= maxStreak, window <= 10) stays valid, and `maxStreak` never decreases. |
| `Adaptive.IdleCorrectAnswerRestartsStreak` | src/lib/adaptive.ts:66-86 | After more than 30 idle minutes a correct answer ends with streak 1 and no reset. Momentum becomes min(1, max(0, m-0.2)+0.15), and difficulty is unchanged. |
| `Adaptive.WrongThenCorrectDoesNotBounceBack` | src/lib/adaptive.ts:105-123 | A wrong answer followed by a correct one leaves difficulty at max(1, d-1): no ping-pong. |
| `Adaptive.ScenarioCorrectRaises` | src/lib/adaptive.ts:58-134 | Start: difficulty 3, momentum 0.5, streak 1, ten correct in the window. A correct answer gives momentum 0.65, streak 2 and difficulty 4. |
| `Adaptive.ScenarioWrongDrops` | src/lib/adaptive.ts:58-134 | The same state with a wrong answer gives momentum 0.2, streak 0 with a reset, and difficulty 2. |
| `Adaptive.ScenarioIdleCorrect` | src/lib/adaptive.ts:66-93 | Last answer 31 minutes ago, streak 5, momentum 0.8: a correct answer decays first and ends with streak 1 and momentum 0.75. |
| `Adaptive.GetDifficultyLabel` | src/lib/adaptive.ts:139-145 | The label's rank is 0 up to level 2, 4 from level 9, and (d-1)/2 in between: bands of two levels. |
| `Adaptive.DifficultyLabelMonotone` | src/lib/adaptive.ts:139-145 | A harder level never gets an easier label. |
| `Scoring.BaseDifficultyScore` | src/lib/scoring.ts:24-26 | The base score of a level in [1,10] lies in [10,100]. |
| `Scoring.StreakMultiplierTenths` | src/lib/scoring.ts:32-34 | The multiplier is 1.0x + 0.1x per streak for streaks 0..20, at least 1.0x for any streak >= 0, and never above 3.0x. It reaches the cap exactly from streak 20. |
| `Scoring.StreakMultiplierMonotone` | src/lib/scoring.ts:32-34 | The multiplier is non-decreasing in the streak. |
| `Scoring.CalculateScoreDelta` | src/lib/scoring.ts:40-50 | A wrong answer scores 0. A correct one scores base score x multiplier: ten times the result equals base x multiplier-in-tenths. |
| `Scoring.ScoreDeltaBounds` | src/lib/scoring.ts:40-50 | For d in [1,10] and s >= 0 the points lie in [0,300]. They are 0 iff wrong, and between 10d and 30d when correct. |
| `Scoring.ScoreDeltaMonotoneInStreak` | src/lib/scoring.ts:40-50 | A longer post-answer streak never earns fewer points. |
| `Scoring.ScoreDeltaExample` | src/lib/scoring.ts:40-50 | Difficulty 5 with streak 4 scores 70 when correct and 0 when wrong. |
| `Scoring.CalculateAccuracy` | src/lib/scoring.ts:55-58 | Accuracy is 0 with nothing answered. Otherwise it is correct/answered x 100% rounded half up to hundredths: the nearest value, with ties going up. |
| `Scoring.AccuracyInRange` | src/lib/scoring.ts:55-58 | With 0 <= correct <= answered, accuracy lies in [0%,100%], and it is 100% when every answer was correct. |
| `Scoring.AccuracyMonotone` | src/lib/scoring.ts:55-58 | More correct answers out of the same total never lower accuracy. |
| `Scoring.GenerateDifficultyHistogram` | src/lib/scoring.ts:63-81 | The histogram has exactly the keys 1..10. Each bucket counts the logs at that difficulty and the correct ones among them, so correct <= total. Logs at other difficulties are ignored. |
| `Scoring.HistogramTotalsCountInRangeLogs` | src/lib/scoring.ts:72-79 | The bucket totals add up to the number of logs whose difficulty lies in 1..10. |
| `Leaderboard.RankIn` | src/app/api/v1/quiz/answer/route.ts:256-279 | A rank is at least 1. For a user on the board it is at most the board's size. A user with no entry is ranked 1, because no entry is greater than SQL NULL. |
| `Leaderboard.RankOneIffTop` | src/app/api/v1/quiz/answer/route.ts:259-265 | Rank 1 iff nobody's entry is strictly greater. |
| `Leaderboard.RankOrdersUsers` | src/app/api/v1/quiz/answer/route.ts:259-274 | A strictly greater entry gives a strictly better rank, and equal entries share a rank. |
| `Leaderboard.RaisingEntryNeverWorsensRank` | src/app/api/v1/quiz/answer/route.ts:259-265 | Raising one's own entry never worsens one's rank. |
| `Leaderboard.NewcomerShiftsRankByOne` | src/app/api/v1/quiz/answer/route.ts:259-274 | Ranks count entries, not distinct values: a new entry strictly above a user's pushes the user down exactly one place, and one at or below leaves the rank unchanged. |
| `AnswerRoute.LeaderboardRanks` | src/app/api/v1/quiz/answer/route.ts:256-285 | When the rank queries succeed, the score rank is the rank rule applied to the score board and the streak rank is the rank rule applied to the streak board: each is >= 1 and at most its board's size. When they fail, both ranks are 0. |
| `AnswerRoute.ReportedRankOneIffTop` | src/app/api/v1/quiz/answer/route.ts:259-274 | The reported score rank is 1 iff nobody on the score board is strictly ahead, and the same holds for the streak rank on the streak board. |
| `AnswerRoute.HasRequiredFields` | src/app/api/v1/quiz/answer/route.ts:24 | The request has a non-empty user id, question id and idempotency key, and an answer that is present; an answer of 0 counts as present. |
| `AnswerRoute.VersionMismatch` | src/app/api/v1/quiz/answer/route.ts:99 | A conflict needs an expected version that is present, non-zero and different from the stored one; an absent version or 0 skips the check. |
| `AnswerRoute.CacheHit` | src/app/api/v1/quiz/answer/route.ts:43-44 | The idempotency cache answers iff the read succeeds and the key is cached. |
| `AnswerRoute.SubmitAnswer` | src/app/api/v1/quiz/answer/route.ts:18-253 | 400 iff a required field is missing (answer 0 is accepted). 429 iff the request is valid but the rate limit denies it, before any idempotency lookup. Duplicate iff either idempotency tier knows the key. 404 iff the question or user is unknown. 409 iff a truthy expected version differs. 500 iff the commit fails. Accepted iff a new key reaches a known question and user with a matching or falsy version and the commit succeeds. Every non-accepted path leaves the store unchanged. An accepted one adds exactly its fresh key to the log. |
| `AnswerRoute.CommittedUser` | src/app/api/v1/quiz/answer/route.ts:131-149 | The record after an accepted answer takes the new difficulty, streak, max streak, momentum, window and answer time. Score rises by the points, answered by one, correct by one iff correct, and version by one. The question becomes the last one served. |
| `AnswerRoute.CommitAnswer` | src/app/api/v1/quiz/answer/route.ts:106-246 | The accepting path always answers as accepted, and it adds exactly the request's key to the answer log. |
| `AnswerRoute.CacheHitReplaysOutcome` | src/app/api/v1/quiz/answer/route.ts:42-57 | A cache hit replays the cached correctness, difficulty, streak, points, total and version, flagged duplicate, and writes nothing. |
| `AnswerRoute.LogHitReplaysLoggedAnswer` | src/app/api/v1/quiz/answer/route.ts:60-76 | On a cache miss, a logged key replays the logged correctness and points with the user's current record, flagged duplicate, and writes nothing. A requester with no record gets difficulty 1, streak 0, score 0 and version 1 instead. |
| `AnswerRoute.AcceptedAnswerCommitsTogether` | src/app/api/v1/quiz/answer/route.ts:79-246 | An accepted answer passed every check, and correctness is exactly answer == correctIndex. The record takes the adaptive result and remembers the question as the last one served. Version and answered each rise by one, and correct rises iff correct. The score rises by the points for the served difficulty and the post-answer streak. Exactly one log entry is added. Both leaderboard entries mirror the new record. The outcome is cached under the key iff the cache write succeeds. Nothing else changes. The response carries correctness, the correct index, the new difficulty, streak and max streak, the points, the new total, momentum and version, the reset and decay flags, and the ranks read after the commit. |
| `AnswerRoute.CommitAnswerPreservesValid` | src/app/api/v1/quiz/answer/route.ts:131-199 | The commit keeps the store invariant, including that every cached outcome agrees with the log. |
| `AnswerRoute.SubmitAnswerPreservesValid` | src/app/api/v1/quiz/answer/route.ts:18-253 | Every path of the submission handler keeps the store invariant. |
| `AnswerRoute.RetryReplaysAcceptedOutcome` | src/app/api/v1/quiz/answer/route.ts:40-76 | An immediate retry of an accepted submission writes nothing. It replays the same correctness, difficulty, streak, points, total and version whether or not the cache read or write failed on either call. |
| `AnswerRoute.LaterRetryReportsCurrentRecord` | src/app/api/v1/quiz/answer/route.ts:60-76 | A retry made after a later accepted answer by the same user, which misses the cache, keeps the first answer's correctness and points. It reports the later answer's difficulty, streak, total and version, since the log tier reads the current record. |
| `AnswerRoute.SameVersionSecondSubmissionConflicts` | src/app/api/v1/quiz/answer/route.ts:99-104 | After one submission with expected version v is accepted, a second one with a new key and the same v gets 409 and writes nothing. |
| `NextRoute.IdleDecayDue` | src/app/api/v1/quiz/next/route.ts:36-39 | The fetch-time decay applies iff an answer time is recorded, more than 30 minutes have passed, and the streak is positive. |
| `NextRoute.ApplyIdleDecay` | src/app/api/v1/quiz/next/route.ts:36-49 | When a positive streak has been idle more than 30 minutes, the decay sets streak 0 and momentum max(0, m-0.2) and bumps the version. Every other field stays as it was, `lastAnswerAt` included. Otherwise the record is unchanged. |
| `NextRoute.Truthy` | src/app/api/v1/quiz/next/route.ts:52 | A session id takes part in the `||` chain only when present and non-empty. |
| `NextRoute.ChooseSessionId` | src/app/api/v1/quiz/next/route.ts:52 | The active session is the request's non-empty id, else the stored non-empty id, else the fresh one. |
| `NextRoute.PersistSession` | src/app/api/v1/quiz/next/route.ts:54-59 | Afterwards the stored session is the active one. The record changes iff the session differed, and only in its session field. |
| `NextRoute.FetchNextQuestion` | src/app/api/v1/quiz/next/route.ts:13-87 | 400 iff the user id is missing. 429 iff the rate limit denies. 404 iff the user is unknown. Only a known user's record can change, and the log, cache, boards, names and questions are untouched. |
| `NextRoute.FetchWritesDecayedRecord` | src/app/api/v1/quiz/next/route.ts:36-87 | A fetch stores the decayed record with the chosen session before generation, so a 503 keeps those writes. When served, the response carries the chosen session and the post-decay version, total score, streak, max streak, difficulty and momentum. |
| `NextRoute.FetchThenAnswerDecaysTwice` | src/app/api/v1/quiz/next/route.ts:36-49 | `lastAnswerAt` is not moved, so a later answer is again inactive and loses 0.2 momentum a second time. |
| `NextRoute.ScenarioFetchThenAnswer` | src/app/api/v1/quiz/next/route.ts:36-49 | With momentum 0.8, a fetch followed by a correct answer leaves 0.55, where the answer alone would leave 0.75. |
| `NextRoute.SessionIdSticky` | src/app/api/v1/quiz/next/route.ts:52-59 | Once a session id is stored, a later fetch without one reuses it and writes no session change. |
| `NextRoute.FetchPreservesValid` | src/app/api/v1/quiz/next/route.ts:36-59 | The fetch keeps the store invariant. |
| `RegisterRoute.IsWhitespace` | src/app/api/v1/auth/register/route.ts:16 | The characters `trim` removes: tab, LF, vertical tab, form feed, CR, space, no-break space, U+1680, U+2000-U+200A, U+2028, U+2029, U+202F, U+205F, U+3000 and the byte order mark. |
| `RegisterRoute.SkipLeading` | src/app/api/v1/auth/register/route.ts:16 | The scan stops at the first non-whitespace character at or after the start index (or the end), passing only whitespace. |
| `RegisterRoute.SkipTrailing` | src/app/api/v1/auth/register/route.ts:16 | The scan backs up over trailing whitespace only and stops after a non-whitespace character (or at the lower bound). |
| `RegisterRoute.Trim` | src/app/api/v1/auth/register/route.ts:16 | The result is a middle slice of the input, whitespace is all that is dropped on either side, and the result has none at either end. |
| `RegisterRoute.TrimIsUnique` | src/app/api/v1/auth/register/route.ts:16 | Any slice with only whitespace outside it and none at its ends is the trim, so the characterisation above determines the result; in particular a string with no outer whitespace is its own trim. |
| `RegisterRoute.LowerChar` | src/app/api/v1/auth/register/route.ts:16 | The result is never an upper-case letter. A-Z move to a-z, and every other character is kept. |
| `RegisterRoute.ToLower` | src/app/api/v1/auth/register/route.ts:16 | Same length, and every character lower-cased in place. |
| `RegisterRoute.NormalizeUsername` | src/app/api/v1/auth/register/route.ts:16 | The stored name is the trimmed input lower-cased: as long as the trimmed input, with no letter A-Z left and no whitespace at either end. |
| `RegisterRoute.NormalizeIdempotent` | src/app/api/v1/auth/register/route.ts:16 | Normalising a username twice equals normalising once. |
| `RegisterRoute.Utf16Length` | src/app/api/v1/auth/register/route.ts:9 | The JavaScript length lies between the number of code points and twice that number. |
| `RegisterRoute.InitialUserState` | src/app/api/v1/auth/register/route.ts:31-57 | A new record is valid and starts with no answer time and an empty window. |
| `RegisterRoute.InvalidUsername` | src/app/api/v1/auth/register/route.ts:9-14 | A username is refused when it is absent, not a string, empty, or shorter than 2 UTF-16 units once trimmed. |
| `RegisterRoute.Register` | src/app/api/v1/auth/register/route.ts:9-66 | 400 iff the username is missing, not a string, or shorter than 2 UTF-16 units once trimmed. 409 iff its normalised form is taken. Registered iff the name is valid and untaken and the generated id is free. A failure creates nothing. A success stores the normalised name, the initial record and zero score and streak leaderboard entries under the new id. |
| `RegisterRoute.RegisteredNameIsTaken` | src/app/api/v1/auth/register/route.ts:16-28 | After a name registers, every spelling with the same normalised form is refused with 409 and creates nothing. |
| `RegisterRoute.RegisterPreservesValid` | src/app/api/v1/auth/register/route.ts:31-57 | Registration keeps the store invariant, and a new user's first answer never sees an inactivity decay. |

## Left out

- HTTP and JSON handling. Request fields are typed: ids and keys are strings (empty means missing), the answer and expected version are optional integers, and the username is an optional string. A non-string id or a non-number answer or version is not modelled.
- Floating point. Momentum rounding to three decimals, `Math.round` of the score product and of accuracy, and IEEE drift are replaced by exact integer encodings. The fetch handler stores its decayed momentum unrounded, which the thousandths encoding does not distinguish.
- Scoring.CalculateAccuracy: at exact half-hundredth ties the source can round down where the model rounds up. For 57 correct of 800, `57/800*10000` evaluates to 712.4999… in double precision, so the source reports 7.12 and the model 7.13.
- Concurrency. Only sequential semantics are modelled. The version check is a read before the transaction, and the update filters on the user id only, so the model makes no claim about two requests interleaving.
- The rate limiter's sorted-set window is an `allowed` verdict in the environment. It already includes failing open when the cache server is down.
- Cache invalidation of the user-state and leaderboard caches (answer/route.ts:202-204): those caches are not part of this model. Expiry of an idempotency entry behaves like a cache miss, which the failed-read case covers.
- NextRoute.FetchNextQuestion: question generation may insert a newly generated question into the question table. That insert is not modelled, so the contract's claim that `questions` is untouched holds only for the model.
- AI feedback and explanation (answer/route.ts:209-229) and question generation (next/route.ts:64). Generation is reduced to whether a question was available. The question's content in the fetch response is not modelled.
- Database failures. Only a failed answer commit, a failed rank query and a clashing generated user id are modelled. A failure during a read lookup (the 500 from the catch block) is not.
- Leaderboard rows also store a username, which is display data and not modelled.
- RegisterRoute.LowerChar: lower-cases A-Z only and keeps every other character. JavaScript's `toLowerCase` also maps non-ASCII capitals (such as 'É' to 'é'), which would need the Unicode case tables.
- RegisterRoute.ToLower: inherits the ASCII-only mapping of LowerChar.
- RegisterRoute.Register: because of the ASCII-only lower-casing, two names that differ only in the case of a non-ASCII letter are both accepted here, where the source answers 409 to the second.
- The database schema is not part of this model. The initial `stateVersion` of 1 is the schema default that the fallback at answer/route.ts:72 also assumes.
- The metrics, leaderboard, login and config routes, the question pool refill, and the UI.
