/**
 * Points, accuracy and the per-difficulty histogram.
 *
 * The streak multiplier is kept in tenths (10 stands for 1.0x, 30 for the
 * 3.0x cap), so `round(d * 10 * min(1 + 0.1 * s, 3.0))` is the exact integer
 * `d * min(10 + s, 30)`. Accuracy is kept in hundredths of a percent.
 */
module Scoring {

  /** The 3.0x cap, in tenths. */
  const MaxStreakMultiplierTenths := 30
  /** One tenth of a multiplier per streak step. */
  const StreakMultiplierIncrementTenths := 1

  function BaseDifficultyScore(difficulty: int): (r: int)
    ensures 1 <= difficulty <= 10 ==> 10 <= r <= 100
  {
    difficulty * 10
  }

  /** The streak multiplier in tenths: starts at 1.0x, +0.1x per streak, capped. */
  function StreakMultiplierTenths(streak: int): (m: int)
    ensures m <= MaxStreakMultiplierTenths
    ensures m == MaxStreakMultiplierTenths <==> streak >= 20
    ensures streak == 0 ==> m == 10
    ensures streak >= 0 ==> m >= 10
    ensures 0 <= streak <= 20 ==> m == 10 + streak
  {
    var raw := 10 + streak * StreakMultiplierIncrementTenths;
    if raw <= MaxStreakMultiplierTenths then raw else MaxStreakMultiplierTenths
  }

  lemma StreakMultiplierMonotone(s1: int, s2: int)
    requires s1 <= s2
    ensures StreakMultiplierTenths(s1) <= StreakMultiplierTenths(s2)
  {
  }

  /** Points for one answer; the streak is the one after the answer. */
  function CalculateScoreDelta(difficulty: int, streak: int, isCorrect: bool): (r: int)
    ensures !isCorrect ==> r == 0
    ensures isCorrect ==> 10 * r == BaseDifficultyScore(difficulty) * StreakMultiplierTenths(streak)
  {
    if !isCorrect then 0
    else
      var m := StreakMultiplierTenths(streak);
      assert 10 * (difficulty * m) == (difficulty * 10) * m;
      difficulty * m
  }

  /** For a difficulty in [1,10] and a streak >= 0 the points lie in [0, 300],
      are at least the base score when correct, and are 0 exactly when wrong. */
  lemma ScoreDeltaBounds(difficulty: int, streak: int, isCorrect: bool)
    requires 1 <= difficulty <= 10 && streak >= 0
    ensures var r := CalculateScoreDelta(difficulty, streak, isCorrect);
      && 0 <= r <= 300
      && (r == 0 <==> !isCorrect)
      && (isCorrect ==> difficulty * 10 <= r <= difficulty * 30)
  {
    var m := StreakMultiplierTenths(streak);
    if isCorrect {
      assert 10 <= m <= 30;
      assert CalculateScoreDelta(difficulty, streak, isCorrect) == difficulty * m;
    }
  }

  lemma MulMonotone(k: int, x: int, y: int)
    requires k >= 0 && x <= y
    ensures k * x <= k * y
  {
    assert k * y - k * x == k * (y - x);
  }

  /** A longer streak never earns fewer points. */
  lemma ScoreDeltaMonotoneInStreak(difficulty: int, s1: int, s2: int, isCorrect: bool)
    requires difficulty >= 0 && s1 <= s2
    ensures CalculateScoreDelta(difficulty, s1, isCorrect) <= CalculateScoreDelta(difficulty, s2, isCorrect)
  {
    if isCorrect {
      StreakMultiplierMonotone(s1, s2);
      MulMonotone(difficulty, StreakMultiplierTenths(s1), StreakMultiplierTenths(s2));
    }
  }

  /** Difficulty 5 with streak 4: base 50 times 1.4 gives 70 points. */
  lemma ScoreDeltaExample()
    ensures CalculateScoreDelta(5, 4, true) == 70
    ensures CalculateScoreDelta(5, 4, false) == 0
  {
  }

  // ---------------------------------------------------------------------
  // Accuracy
  // ---------------------------------------------------------------------

  /** Accuracy in hundredths of a percent: correct / answered * 100, rounded
      to two decimals half upwards, and 0 when nothing was answered. */
  function CalculateAccuracy(totalCorrect: nat, totalAnswered: nat): (r: int)
    ensures totalAnswered == 0 ==> r == 0
    ensures totalAnswered > 0 ==>
      2 * totalAnswered * r <= 20000 * totalCorrect + totalAnswered < 2 * totalAnswered * (r + 1)
  {
    if totalAnswered == 0 then 0
    else (20000 * totalCorrect + totalAnswered) / (2 * totalAnswered)
  }

  /** With no more correct than answered, accuracy lies in [0%, 100%], and is
      100% exactly when every answer was correct. */
  lemma AccuracyInRange(totalCorrect: nat, totalAnswered: nat)
    requires totalCorrect <= totalAnswered
    ensures var r := CalculateAccuracy(totalCorrect, totalAnswered);
      && 0 <= r <= 10000
      && (0 < totalCorrect == totalAnswered ==> r == 10000)
  {
    if totalAnswered > 0 {
      var a := totalAnswered;
      var r := CalculateAccuracy(totalCorrect, a);
      MulMonotone(20000, totalCorrect, a);
      if r < 0 {
        MulMonotone(2 * a, r, -1);
      }
      if r > 10000 {
        MulMonotone(2 * a, 10001, r);
      }
      if totalCorrect == a && r < 10000 {
        MulMonotone(2 * a, r + 1, 10000);
      }
    }
  }

  /** More correct answers out of the same number never lower accuracy. */
  lemma AccuracyMonotone(c1: nat, c2: nat, totalAnswered: nat)
    requires c1 <= c2
    ensures CalculateAccuracy(c1, totalAnswered) <= CalculateAccuracy(c2, totalAnswered)
  {
    if totalAnswered > 0 {
      var a := totalAnswered;
      var r1, r2 := CalculateAccuracy(c1, a), CalculateAccuracy(c2, a);
      MulMonotone(20000, c1, c2);
      if r1 > r2 {
        MulMonotone(2 * a, r2 + 1, r1);
      }
    }
  }

  // ---------------------------------------------------------------------
  // Difficulty histogram
  // ---------------------------------------------------------------------

  /** The two fields of an answer log the histogram reads. */
  datatype LogSummary = LogSummary(difficulty: int, correct: bool)

  datatype Bucket = Bucket(total: nat, correct: nat)

  /** Logs answered at difficulty `d`. */
  function CountAt(logs: seq<LogSummary>, d: int): nat
  {
    if |logs| == 0 then 0
    else CountAt(logs[..|logs| - 1], d) + (if logs[|logs| - 1].difficulty == d then 1 else 0)
  }

  /** Correct logs answered at difficulty `d`. */
  function CountCorrectAt(logs: seq<LogSummary>, d: int): (n: nat)
    ensures n <= CountAt(logs, d)
  {
    if |logs| == 0 then 0
    else
      var last := logs[|logs| - 1];
      CountCorrectAt(logs[..|logs| - 1], d) + (if last.difficulty == d && last.correct then 1 else 0)
  }

  /** Logs whose difficulty lies in [lo, hi]. */
  function CountBetween(logs: seq<LogSummary>, lo: int, hi: int): nat
  {
    if |logs| == 0 then 0
    else
      var last := logs[|logs| - 1];
      CountBetween(logs[..|logs| - 1], lo, hi) + (if lo <= last.difficulty <= hi then 1 else 0)
  }

  /** One bucket per difficulty 1..10 counting the logs at that difficulty;
      logs at any other difficulty are skipped. */
  method GenerateDifficultyHistogram(logs: seq<LogSummary>) returns (h: map<int, Bucket>)
    ensures forall d :: d in h <==> 1 <= d <= 10
    ensures forall d :: 1 <= d <= 10 ==> h[d] == Bucket(CountAt(logs, d), CountCorrectAt(logs, d))
    ensures forall d :: d in h ==> h[d].correct <= h[d].total
  {
    h := map[];
    var d := 1;
    while d <= 10
      invariant 1 <= d <= 11
      invariant forall k :: k in h <==> 1 <= k < d
      invariant forall k :: k in h ==> h[k] == Bucket(0, 0)
    {
      h := h[d := Bucket(0, 0)];
      d := d + 1;
    }
    var i := 0;
    while i < |logs|
      invariant 0 <= i <= |logs|
      invariant forall k :: k in h <==> 1 <= k <= 10
      invariant forall k :: 1 <= k <= 10 ==>
        h[k] == Bucket(CountAt(logs[..i], k), CountCorrectAt(logs[..i], k))
    {
      var log := logs[i];
      assert logs[..i + 1][..i] == logs[..i];
      if log.difficulty in h {
        var b := h[log.difficulty];
        h := h[log.difficulty := Bucket(b.total + 1, if log.correct then b.correct + 1 else b.correct)];
      }
      i := i + 1;
    }
    assert logs[..|logs|] == logs;
  }

  /** Sum of bucket totals for difficulties lo..hi. */
  function SumCounts(logs: seq<LogSummary>, lo: int, hi: int): nat
    decreases hi - lo
  {
    if lo > hi then 0 else CountAt(logs, lo) + SumCounts(logs, lo + 1, hi)
  }

  lemma {:induction false} SumCountsSnoc(logs: seq<LogSummary>, x: LogSummary, lo: int, hi: int)
    ensures SumCounts(logs + [x], lo, hi) == SumCounts(logs, lo, hi) + (if lo <= x.difficulty <= hi then 1 else 0)
    decreases hi - lo
  {
    assert (logs + [x])[..|logs + [x]| - 1] == logs;
    if lo <= hi {
      SumCountsSnoc(logs, x, lo + 1, hi);
    }
  }

  /** The bucket totals add up to the number of logs at a difficulty in 1..10. */
  lemma {:induction false} HistogramTotalsCountInRangeLogs(logs: seq<LogSummary>)
    ensures SumCounts(logs, 1, 10) == CountBetween(logs, 1, 10)
  {
    if |logs| > 0 {
      var init := logs[..|logs| - 1];
      HistogramTotalsCountInRangeLogs(init);
      assert init + [logs[|logs| - 1]] == logs;
      SumCountsSnoc(init, logs[|logs| - 1], 1, 10);
    }
  }
}
