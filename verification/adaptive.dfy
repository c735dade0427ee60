/**
 * The per-user adaptive difficulty state machine.
 *
 * Momentum is kept in thousandths (0..1000 stands for 0.0..1.0): every step
 * (+0.15, -0.30, the inactivity penalty -0.2) and the threshold 0.6 are whole
 * thousandths, so the stored value, which is rounded to three decimals, is
 * represented exactly. Time is integer milliseconds.
 */
module Adaptive {
  import opened Options

  const MinDifficulty := 1
  const MaxDifficulty := 10

  const MomentumIncreaseOnCorrect := 150
  const MomentumDecreaseOnWrong := 300
  const MomentumThreshold := 600
  const MomentumMin := 0
  const MomentumMax := 1000
  /** Momentum lost to an inactivity decay (0.2). */
  const InactivityMomentumPenalty := 200

  const RollingWindowSize := 10
  const MinStreakToIncrease := 2

  /** 30 minutes, in milliseconds. */
  const InactivityThresholdMs := 30 * 60 * 1000

  datatype AdaptiveState = AdaptiveState(
    currentDifficulty: int,
    momentum: int,
    streak: int,
    maxStreak: int,
    recentAnswers: seq<bool>,
    lastAnswerAt: Option<int>)

  datatype AdaptiveResult = AdaptiveResult(
    newDifficulty: int,
    newMomentum: int,
    newStreak: int,
    newMaxStreak: int,
    newRecentAnswers: seq<bool>,
    streakReset: bool,
    inactivityDecay: bool)

  /** The invariant every stored state keeps. */
  predicate ValidAdaptive(s: AdaptiveState)
  {
    && MinDifficulty <= s.currentDifficulty <= MaxDifficulty
    && MomentumMin <= s.momentum <= MomentumMax
    && 0 <= s.streak <= s.maxStreak
    && |s.recentAnswers| <= RollingWindowSize
  }

  function Min(a: int, b: int): int { if a <= b then a else b }
  function Max(a: int, b: int): int { if a >= b then a else b }

  /** True when more than 30 minutes have passed since a recorded answer. */
  predicate Inactive(lastAnswerAt: Option<int>, now: int)
  {
    lastAnswerAt.Some? && now - lastAnswerAt.value > InactivityThresholdMs
  }

  /** Momentum after an inactivity decay. */
  function DecayMomentum(m: int): (r: int)
    ensures r >= MomentumMin
    ensures r <= m || m < MomentumMin
    ensures m >= InactivityMomentumPenalty ==> r == m - InactivityMomentumPenalty
    ensures m < InactivityMomentumPenalty ==> r == MomentumMin
  {
    Max(MomentumMin, m - InactivityMomentumPenalty)
  }

  /** Momentum after one answer: a capped rise or a floored fall. */
  function StepMomentum(m: int, isCorrect: bool): (r: int)
    ensures MomentumMin <= m <= MomentumMax ==> MomentumMin <= r <= MomentumMax
    ensures isCorrect && m <= MomentumMax ==> m <= r
    ensures !isCorrect && m >= MomentumMin ==> r <= m
    ensures isCorrect && m <= MomentumMax - MomentumIncreaseOnCorrect ==> r == m + MomentumIncreaseOnCorrect
    ensures isCorrect && m >= MomentumMax - MomentumIncreaseOnCorrect ==> r == MomentumMax
    ensures !isCorrect && m >= MomentumDecreaseOnWrong ==> r == m - MomentumDecreaseOnWrong
    ensures !isCorrect && m <= MomentumDecreaseOnWrong ==> r == MomentumMin
  {
    if isCorrect then Min(MomentumMax, m + MomentumIncreaseOnCorrect)
    else Max(MomentumMin, m - MomentumDecreaseOnWrong)
  }

  /** Number of correct answers in a window. */
  function CountTrue(w: seq<bool>): (n: nat)
    ensures n <= |w|
    ensures n == |w| <==> forall i :: 0 <= i < |w| ==> w[i]
    ensures n == 0 <==> forall i :: 0 <= i < |w| ==> !w[i]
  {
    if |w| == 0 then 0
    else CountTrue(w[..|w| - 1]) + (if w[|w| - 1] then 1 else 0)
  }

  /** Window accuracy is at least 60% (a window that is empty has accuracy 0). */
  predicate WindowAccurate(w: seq<bool>)
  {
    |w| > 0 && CountTrue(w) * 10 >= 6 * |w|
  }

  /** Appends an answer and keeps only the last RollingWindowSize entries. */
  function SlideWindow(recent: seq<bool>, isCorrect: bool): (w: seq<bool>)
    ensures |w| == Min(RollingWindowSize, |recent| + 1)
    ensures w == (recent + [isCorrect])[|recent| + 1 - |w|..]
    ensures w[|w| - 1] == isCorrect
  {
    var full := recent + [isCorrect];
    if |full| <= RollingWindowSize then full else full[|full| - RollingWindowSize..]
  }

  /** The three conditions that must all hold for difficulty to rise. */
  predicate RiseGate(momentum: int, streak: int, window: seq<bool>)
  {
    momentum >= MomentumThreshold && streak >= MinStreakToIncrease && WindowAccurate(window)
  }

  /** Streak and momentum as seen by the answer: after any inactivity decay. */
  function StreakBeforeAnswer(s: AdaptiveState, now: int): int
  {
    if Inactive(s.lastAnswerAt, now) then 0 else s.streak
  }

  function MomentumBeforeAnswer(s: AdaptiveState, now: int): int
  {
    if Inactive(s.lastAnswerAt, now) then DecayMomentum(s.momentum) else s.momentum
  }

  /**
   * One adaptive transition: inactivity decay, streak, momentum, rolling
   * window, window accuracy, then the gated difficulty change, in that order.
   */
  function ComputeNextState(s: AdaptiveState, isCorrect: bool, now: int): (r: AdaptiveResult)
    ensures r.inactivityDecay <==> Inactive(s.lastAnswerAt, now)
    ensures r.newMomentum == StepMomentum(MomentumBeforeAnswer(s, now), isCorrect)
    ensures r.newRecentAnswers == SlideWindow(s.recentAnswers, isCorrect)
    ensures isCorrect ==> r.newStreak == StreakBeforeAnswer(s, now) + 1 && !r.streakReset
    ensures !isCorrect ==> r.newStreak == 0 && (r.streakReset <==> StreakBeforeAnswer(s, now) > 0)
    ensures r.newMaxStreak == (if isCorrect then Max(s.maxStreak, r.newStreak) else s.maxStreak)
  {
    var decay := Inactive(s.lastAnswerAt, now);
    var streak0 := StreakBeforeAnswer(s, now);
    var momentum0 := MomentumBeforeAnswer(s, now);
    var streak1 := if isCorrect then streak0 + 1 else 0;
    var maxStreak1 := if isCorrect && streak1 > s.maxStreak then streak1 else s.maxStreak;
    var reset := !isCorrect && streak0 > 0;
    var momentum1 := StepMomentum(momentum0, isCorrect);
    var window := SlideWindow(s.recentAnswers, isCorrect);
    var difficulty :=
      if isCorrect then
        (if RiseGate(momentum1, streak1, window)
         then Min(MaxDifficulty, s.currentDifficulty + 1)
         else s.currentDifficulty)
      else Max(MinDifficulty, s.currentDifficulty - 1);
    AdaptiveResult(difficulty, momentum1, streak1, maxStreak1, window, reset, decay)
  }

  /** The state the caller stores after a transition made at `now`. */
  function Apply(r: AdaptiveResult, now: int): AdaptiveState
  {
    AdaptiveState(r.newDifficulty, r.newMomentum, r.newStreak, r.newMaxStreak,
                  r.newRecentAnswers, Some(now))
  }

  // ---------------------------------------------------------------------
  // Properties of the transition
  // ---------------------------------------------------------------------

  /** A wrong answer drops difficulty by exactly one level (floor 1), whatever
      the momentum and streak. */
  lemma WrongAnswerLowersDifficulty(s: AdaptiveState, now: int)
    ensures ComputeNextState(s, false, now).newDifficulty == Max(MinDifficulty, s.currentDifficulty - 1)
    ensures ComputeNextState(s, false, now).newMaxStreak == s.maxStreak
  {
  }

  /** Hysteresis, both directions: after a correct answer difficulty either
      stays or rises by one (capped at 10), and it rises exactly when the
      post-update momentum, streak and window all pass the gate. */
  lemma CorrectAnswerRaisesOnlyThroughGate(s: AdaptiveState, now: int)
    requires s.currentDifficulty < MaxDifficulty
    ensures var r := ComputeNextState(s, true, now);
      && (r.newDifficulty == s.currentDifficulty || r.newDifficulty == s.currentDifficulty + 1)
      && (r.newDifficulty == s.currentDifficulty + 1 <==>
            r.newMomentum >= MomentumThreshold
            && r.newStreak >= MinStreakToIncrease
            && CountTrue(r.newRecentAnswers) * 10 >= 6 * |r.newRecentAnswers|)
  {
  }

  /** Difficulty never rises on a wrong answer and never moves by more than one. */
  lemma DifficultyMovesByAtMostOne(s: AdaptiveState, isCorrect: bool, now: int)
    requires MinDifficulty <= s.currentDifficulty <= MaxDifficulty
    ensures var d' := ComputeNextState(s, isCorrect, now).newDifficulty;
      && MinDifficulty <= d' <= MaxDifficulty
      && s.currentDifficulty - 1 <= d' <= s.currentDifficulty + 1
      && (!isCorrect ==> d' <= s.currentDifficulty)
      && (isCorrect ==> d' >= s.currentDifficulty)
  {
  }

  /** The transition keeps every stored state valid: difficulty in [1,10],
      momentum in [0,1], 0 <= streak <= maxStreak, window of at most 10. */
  lemma ComputeNextStatePreservesValid(s: AdaptiveState, isCorrect: bool, now: int)
    requires ValidAdaptive(s)
    ensures var r := ComputeNextState(s, isCorrect, now);
      && ValidAdaptive(Apply(r, now))
      && r.newMaxStreak >= s.maxStreak
      && r.newMaxStreak >= r.newStreak
  {
  }

  /** An idle correct answer starts from a decayed streak: it ends with streak 1. */
  lemma IdleCorrectAnswerRestartsStreak(s: AdaptiveState, now: int)
    requires Inactive(s.lastAnswerAt, now)
    ensures var r := ComputeNextState(s, true, now);
      && r.inactivityDecay && r.newStreak == 1 && !r.streakReset
      && r.newMomentum == Min(MomentumMax, Max(MomentumMin, s.momentum - InactivityMomentumPenalty) + MomentumIncreaseOnCorrect)
      && r.newDifficulty == s.currentDifficulty
  {
  }

  /** No ping-pong: a wrong answer followed by a correct one leaves difficulty
      one level lower, since the streak of 1 cannot pass the gate. */
  lemma WrongThenCorrectDoesNotBounceBack(s: AdaptiveState, t1: int, t2: int)
    ensures var r1 := ComputeNextState(s, false, t1);
      var r2 := ComputeNextState(Apply(r1, t1), true, t2);
      r2.newDifficulty == Max(MinDifficulty, s.currentDifficulty - 1)
  {
  }

  /** Replaying a run of answers through the window keeps exactly the last
      entries of the full history (FIFO eviction). */
  function SlideAll(recent: seq<bool>, answers: seq<bool>): seq<bool>
    decreases |answers|
  {
    if |answers| == 0 then recent
    else SlideAll(SlideWindow(recent, answers[0]), answers[1..])
  }

  lemma {:induction false} SlideAllKeepsSuffix(recent: seq<bool>, answers: seq<bool>)
    requires |recent| <= RollingWindowSize
    ensures var w := SlideAll(recent, answers);
      && |w| == Min(RollingWindowSize, |recent| + |answers|)
      && w == (recent + answers)[|recent| + |answers| - |w|..]
    decreases |answers|
  {
    if |answers| > 0 {
      var w1 := SlideWindow(recent, answers[0]);
      SlideAllKeepsSuffix(w1, answers[1..]);
      var w := SlideAll(w1, answers[1..]);
      assert SlideAll(recent, answers) == w;
      SuffixOfSlidSuffix(recent, answers, w1, w);
    }
  }

  /** A tail of (a tail of recent ++ [a0]) ++ answers[1..] is a tail of recent ++ answers. */
  lemma SuffixOfSlidSuffix(recent: seq<bool>, answers: seq<bool>, w1: seq<bool>, w: seq<bool>)
    requires |answers| > 0
    requires |w1| == Min(RollingWindowSize, |recent| + 1)
    requires w1 == (recent + [answers[0]])[|recent| + 1 - |w1|..]
    requires |w| == Min(RollingWindowSize, |w1| + |answers| - 1)
    requires w == (w1 + answers[1..])[|w1| + |answers| - 1 - |w|..]
    ensures |w| == Min(RollingWindowSize, |recent| + |answers|)
    ensures w == (recent + answers)[|recent| + |answers| - |w|..]
  {
    var full := recent + answers;
    var k := |recent| + 1 - |w1|;
    assert recent + [answers[0]] + answers[1..] == full;
    SliceOfConcat(recent + [answers[0]], answers[1..], k);
    var j := |w1| + |answers| - 1 - |w|;
    SuffixOfSuffix(full, k, j);
  }

  lemma SliceOfConcat(x: seq<bool>, y: seq<bool>, k: int)
    requires 0 <= k <= |x|
    ensures x[k..] + y == (x + y)[k..]
  {
  }

  lemma SuffixOfSuffix(x: seq<bool>, k: int, j: int)
    requires 0 <= k <= |x| && 0 <= j <= |x| - k
    ensures x[k..][j..] == x[k + j..]
  {
  }

  // ---------------------------------------------------------------------
  // Worked scenarios
  // ---------------------------------------------------------------------

  /** Difficulty 3, momentum 0.5, streak 1, ten correct answers in the window. */
  lemma ScenarioCorrectRaises()
    ensures var s := AdaptiveState(3, 500, 1, 1, seq(10, _ => true), None);
      var r := ComputeNextState(s, true, 0);
      r.newMomentum == 650 && r.newStreak == 2 && r.newDifficulty == 4
  {
    var w := seq(10, _ => true);
    var r := ComputeNextState(AdaptiveState(3, 500, 1, 1, w, None), true, 0);
    assert CountTrue(r.newRecentAnswers) == 10;
  }

  lemma ScenarioWrongDrops()
    ensures var s := AdaptiveState(3, 500, 1, 1, seq(10, _ => true), None);
      var r := ComputeNextState(s, false, 0);
      r.newMomentum == 200 && r.newStreak == 0 && r.streakReset && r.newDifficulty == 2
  {
  }

  /** Last answer 31 minutes ago, streak 5, momentum 0.8, then a correct answer. */
  lemma ScenarioIdleCorrect()
    ensures var s := AdaptiveState(5, 800, 5, 5, [], Some(0));
      var r := ComputeNextState(s, true, 31 * 60 * 1000);
      r.inactivityDecay && r.newStreak == 1 && r.newMomentum == 750
  {
  }

  // ---------------------------------------------------------------------
  // Difficulty labels
  // ---------------------------------------------------------------------

  /** The constructor names are the strings getDifficultyLabel returns. */
  datatype DifficultyLabel = Beginner | Easy | Medium | Hard | Expert {
    function Rank(): nat
    {
      match this
      case Beginner => 0
      case Easy => 1
      case Medium => 2
      case Hard => 3
      case Expert => 4
    }
  }

  /** Bands of two levels each: 1-2, 3-4, 5-6, 7-8, and 9 or more. */
  function GetDifficultyLabel(d: int): (l: DifficultyLabel)
    ensures l.Rank() == (if d <= 2 then 0 else if d >= 9 then 4 else (d - 1) / 2)
  {
    if d <= 2 then Beginner
    else if d <= 4 then Easy
    else if d <= 6 then Medium
    else if d <= 8 then Hard
    else Expert
  }

  /** Harder levels never get an easier label. */
  lemma DifficultyLabelMonotone(d1: int, d2: int)
    requires d1 <= d2
    ensures GetDifficultyLabel(d1).Rank() <= GetDifficultyLabel(d2).Rank()
  {
  }
}
