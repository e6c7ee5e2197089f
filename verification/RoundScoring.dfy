/** Points for one round: speed bonus, difficulty, streak and hints, with each rounding where it happens. */
module RoundScoring {
  import opened Prelude

  const CORRECT_GUESS: int := 100
  const PARTIAL_MATCH: int := 50
  const STREAK_BONUS: int := 25
  const MAX_SPEED_BONUS: int := 50
  const HINT_PENALTY_PERCENT: int := 25
  const MAX_HINTS: int := 3

  datatype Input = Input(
    basePoints: nat, isCorrect: bool, elapsedMs: int, windowMs: int, hintsUsed: nat, difficulty: int, streak: int)

  datatype Score = Score(
    points: int, speedBonus: int, streakBonus: int, difficultyMultiplier: real, hintPenalty: int, timedOut: bool)

  /** The nearest whole number, halves upward. */
  function Round(x: real): int {
    (x + 0.5).Floor
  }

  function Clamp01(x: real): real {
    if x < 0.0 then 0.0 else if x > 1.0 then 1.0 else x
  }

  function Remaining(elapsedMs: int, windowMs: int): real
    requires windowMs > 0
  {
    Clamp01(1.0 - elapsedMs as real / windowMs as real)
  }

  function ComputeSpeedBonus(basePoints: nat, elapsedMs: int, windowMs: int): int {
    if windowMs <= 0 then 0
    else Round(MAX_SPEED_BONUS as real * (basePoints as real / CORRECT_GUESS as real) * Remaining(elapsedMs, windowMs))
  }

  function HintMultiplier(hintsUsed: nat): real {
    Max(100 - hintsUsed * HINT_PENALTY_PERCENT, 0) as real / 100.0
  }

  function DifficultyMultiplier(difficulty: int): real {
    if difficulty <= 2 then 1.0 else if difficulty == 3 then 1.5 else 2.0
  }

  /** n points scaled by a multiplier, to the nearest whole point. */
  function Scaled(n: int, multiplier: real): int {
    Round(n as real * multiplier)
  }

  function MaxRoundPoints(hintsUsed: nat): int {
    Scaled(CORRECT_GUESS + MAX_SPEED_BONUS, HintMultiplier(hintsUsed))
  }

  function StreakBonusOf(streak: int): int {
    if streak > 0 then STREAK_BONUS * streak else 0
  }

  function Gross(i: Input): int {
    Scaled(i.basePoints + ComputeSpeedBonus(i.basePoints, i.elapsedMs, i.windowMs), DifficultyMultiplier(i.difficulty))
    + StreakBonusOf(i.streak)
  }

  function ScoreRound(i: Input): Score {
    var multiplier := DifficultyMultiplier(i.difficulty);
    if i.elapsedMs > i.windowMs then Score(0, 0, 0, multiplier, 0, true)
    else if !i.isCorrect then Score(0, 0, 0, multiplier, 0, false)
    else
      var points := Scaled(Gross(i), HintMultiplier(i.hintsUsed));
      Score(points, ComputeSpeedBonus(i.basePoints, i.elapsedMs, i.windowMs), StreakBonusOf(i.streak),
            multiplier, Gross(i) - points, false)
  }

  // ----- Rounding and products keep order -----

  lemma RoundKeepsOrder(x: real, y: real)
    requires x <= y
    ensures Round(x) <= Round(y)
  {
  }

  lemma RoundOfInt(n: int)
    ensures Round(n as real) == n
  {
  }

  lemma ProductKeepsOrder(a: real, b: real, c: real, d: real)
    requires 0.0 <= a <= c && 0.0 <= b <= d
    ensures 0.0 <= a * b <= c * d
  {
    assert a * b <= c * b;
    assert c * b <= c * d;
  }

  lemma RoundedProductOrder(a: real, b: real, c: real, d: real)
    requires 0.0 <= a <= c && 0.0 <= b <= d
    ensures 0 <= Round(a * b) <= Round(c * d)
  {
    ProductKeepsOrder(a, b, c, d);
    RoundKeepsOrder(0.0, a * b);
    RoundKeepsOrder(a * b, c * d);
  }

  lemma RemainingFalls(elapsed: int, later: int, window: int)
    requires window > 0 && elapsed <= later
    ensures 0.0 <= Remaining(later, window) <= Remaining(elapsed, window) <= 1.0
  {
    QuotientKeepsOrder(elapsed as real, later as real, window as real);
  }

  lemma QuotientKeepsOrder(x: real, y: real, w: real)
    requires x <= y && w > 0.0
    ensures x / w <= y / w
  {
    assert (y - x) / w >= 0.0;
    assert y / w - x / w == (y - x) / w;
  }

  lemma BonusOrder(base: nat, more: nat, elapsed: int, later: int, window: int)
    requires base <= more && elapsed <= later
    ensures 0 <= ComputeSpeedBonus(base, later, window) <= ComputeSpeedBonus(more, elapsed, window)
  {
    if window > 0 {
      RemainingFalls(elapsed, later, window);
      var a := MAX_SPEED_BONUS as real * (base as real / CORRECT_GUESS as real);
      var c := MAX_SPEED_BONUS as real * (more as real / CORRECT_GUESS as real);
      RoundedProductOrder(a, Remaining(later, window), c, Remaining(elapsed, window));
    }
  }

  /** At most half the base points, so at most 50 for a full answer. */
  lemma BonusBound(base: nat, elapsed: int, window: int)
    requires base <= CORRECT_GUESS
    ensures 0 <= ComputeSpeedBonus(base, elapsed, window) <= MAX_SPEED_BONUS
  {
    BonusOrder(base, CORRECT_GUESS, elapsed, elapsed, window);
    if window > 0 {
      RemainingFalls(elapsed, elapsed, window);
      RoundKeepsOrder(50.0 * Remaining(elapsed, window), 50.0);
    }
  }

  // ----- Points in whole numbers -----

  /** n is num / den to the nearest whole number, halves upward. */
  predicate NearestTo(n: int, num: int, den: int) {
    -den < 2 * (n * den - num) <= den
  }

  lemma SpanOfOne(k: nat, den: nat)
    requires k > 0
    ensures k * den >= den
  {
  }

  /** At most one number is nearest, so the statements below leave no other score. */
  lemma NearestIsOne(m: int, n: int, num: int, den: int)
    requires den > 0 && NearestTo(m, num, den) && NearestTo(n, num, den)
    ensures m == n
  {
    assert (m - n) * den == m * den - n * den;
    if m != n {
      SpanOfOne(if m < n then n - m else m - n, den);
    }
  }

  lemma HalfEachWay(y: real, d: real) returns (p: real)
    requires -0.5 < y <= 0.5 && d > 0.0
    ensures p == y * d && 0.0 - d < 2.0 * p <= d
  {
    p := y * d;
    assert (y + 0.5) * d > 0.0;
    assert (0.5 - y) * d >= 0.0;
  }

  lemma Spread(n: real, x: real, d: real, p: real)
    requires p == (n - x) * d
    ensures p == n * d - x * d
  {
  }

  lemma RoundIsNearest(x: real, num: int, den: int)
    requires den > 0 && x * den as real == num as real
    ensures NearestTo(Round(x), num, den)
  {
    var n := Round(x);
    var p := HalfEachWay(n as real - x, den as real);
    Spread(n as real, x, den as real, p);
    ProductOfWhole(n, den);
    ToWhole(n * den, num, den, p);
  }

  lemma ProductOfWhole(n: int, den: int)
    ensures n as real * den as real == (n * den) as real
  {
  }

  lemma ToWhole(a: int, num: int, den: int, p: real)
    requires p == a as real - num as real && 0.0 - den as real < 2.0 * p <= den as real
    ensures -den < 2 * (a - num) <= den
  {
  }

  lemma ShareTimes(base: nat, rest: int, window: int)
    requires window > 0
    ensures 50.0 * (base as real / 100.0) * (rest as real / window as real) * (2 * window) as real == (base * rest) as real
  {
    var w, q := window as real, rest as real / window as real;
    assert q * w == rest as real;
    assert (base * rest) as real == base as real * rest as real;
    assert 50.0 * (base as real / 100.0) * q * (2.0 * w) == base as real * (q * w);
  }

  lemma RemainingIs(elapsed: int, window: int)
    requires 0 <= elapsed <= window && window > 0
    ensures Remaining(elapsed, window) == (window - elapsed) as real / window as real
  {
    var w := window as real;
    assert w / w == 1.0;
    assert w / w - elapsed as real / w == (w - elapsed as real) / w;
    QuotientKeepsOrder(0.0, (window - elapsed) as real, w);
    QuotientKeepsOrder((window - elapsed) as real, w, w);
  }

  lemma LinearBonus(base: nat, elapsed: int, window: int)
    requires 0 <= elapsed <= window && 0 < window
    ensures NearestTo(ComputeSpeedBonus(base, elapsed, window), base * (window - elapsed), 2 * window)
  {
    var rest := window - elapsed;
    var x := 50.0 * (base as real / 100.0) * (rest as real / window as real);
    RemainingIs(elapsed, window);
    assert ComputeSpeedBonus(base, elapsed, window) == Round(x);
    ShareTimes(base, rest, window);
    RoundIsNearest(x, base * rest, 2 * window);
  }

  lemma ClampedBonus(base: nat, elapsed: int, window: int)
    requires 0 < window && (elapsed <= 0 || elapsed >= window)
    ensures ComputeSpeedBonus(base, elapsed, window) == ComputeSpeedBonus(base, if elapsed <= 0 then 0 else window, window)
    ensures elapsed >= window ==> ComputeSpeedBonus(base, elapsed, window) == 0
  {
    if elapsed <= 0 {
      QuotientKeepsOrder(elapsed as real, 0.0, window as real);
    } else {
      QuotientKeepsOrder(window as real, elapsed as real, window as real);
      assert Remaining(elapsed, window) == 0.0;
    }
  }

  /**
   * The bonus falls on a straight line from half the base points to nothing,
   * rounded once; an answer before the round counts as one at its first instant.
   */
  lemma BonusFallsLinearly(base: nat, elapsed: int, window: int)
    ensures 0 <= elapsed <= window && 0 < window ==>
              -window < 2 * window * ComputeSpeedBonus(base, elapsed, window) - base * (window - elapsed) <= window
    ensures elapsed >= window || window <= 0 ==> ComputeSpeedBonus(base, elapsed, window) == 0
    ensures elapsed <= 0 ==> ComputeSpeedBonus(base, elapsed, window) == ComputeSpeedBonus(base, 0, window)
  {
    if 0 < window && (elapsed <= 0 || elapsed >= window) {
      ClampedBonus(base, elapsed, window);
    }
    if 0 <= elapsed <= window && 0 < window {
      LinearBonus(base, elapsed, window);
      TwiceEach(ComputeSpeedBonus(base, elapsed, window), window, base * (window - elapsed));
    }
  }

  lemma TwiceEach(bonus: int, window: int, num: int)
    requires NearestTo(bonus, num, 2 * window)
    ensures -window < 2 * window * bonus - num <= window
  {
    assert bonus * (2 * window) == 2 * window * bonus;
  }

  /** Twice the difficulty multiplier: 2 for easy rounds, 3 for medium, 4 for hard. */
  function Halves(difficulty: int): int {
    if difficulty <= 2 then 2 else if difficulty == 3 then 3 else 4
  }

  lemma EarnedIsNearest(n: nat, difficulty: int)
    ensures NearestTo(Scaled(n, DifficultyMultiplier(difficulty)), n * Halves(difficulty), 2)
  {
    RoundIsNearest(n as real * DifficultyMultiplier(difficulty), n * Halves(difficulty), 2);
  }

  lemma PointsAreNearest(g: nat, hints: nat)
    ensures NearestTo(Scaled(g, HintMultiplier(hints)), g * Max(100 - 25 * hints, 0), 100)
  {
    var left := Max(100 - 25 * hints, 0);
    assert g as real * (left as real / 100.0) * 100.0 == g as real * left as real == (g * left) as real;
    RoundIsNearest(g as real * HintMultiplier(hints), g * left, 100);
  }

  /**
   * Every part of a score of a correct answer in time: the speed bonus (see
   * BonusFallsLinearly), 25 for each round of the streak, what was earned at the
   * difficulty's multiplier, and what a quarter less for each hint leaves of both.
   * Any other answer scores nothing.
   */
  lemma ScoreIs(i: Input)
    ensures var s := ScoreRound(i);
            && (s.timedOut <==> i.elapsedMs > i.windowMs)
            && s.difficultyMultiplier * 2.0 == Halves(i.difficulty) as real
            && (if i.elapsedMs > i.windowMs || !i.isCorrect then
                  s.points == 0 && s.speedBonus == 0 && s.streakBonus == 0 && s.hintPenalty == 0
                else
                  && s.speedBonus == ComputeSpeedBonus(i.basePoints, i.elapsedMs, i.windowMs)
                  && s.streakBonus == 25 * Max(i.streak, 0)
                  && NearestTo(s.points + s.hintPenalty - s.streakBonus,
                               (i.basePoints + s.speedBonus) * Halves(i.difficulty), 2)
                  && NearestTo(s.points, (s.points + s.hintPenalty) * Max(100 - 25 * i.hintsUsed, 0), 100))
  {
    BonusOrder(i.basePoints, i.basePoints, i.elapsedMs, i.elapsedMs, i.windowMs);
    var n := i.basePoints + ComputeSpeedBonus(i.basePoints, i.elapsedMs, i.windowMs);
    EarnedOrder(n, n, i.difficulty, i.difficulty, i.streak, i.streak);
    EarnedIsNearest(n, i.difficulty);
    PointsAreNearest(Gross(i), i.hintsUsed);
  }

  // ----- The order of scores -----

  /** j is at least as good a round as i in every respect: never slower, never with more hints, never worse. */
  predicate NoWorse(i: Input, j: Input) {
    && i.windowMs == j.windowMs && j.elapsedMs <= i.elapsedMs && j.hintsUsed <= i.hintsUsed
    && i.basePoints <= j.basePoints && i.difficulty <= j.difficulty && i.streak <= j.streak
    && (i.isCorrect ==> j.isCorrect)
  }

  lemma ScaledOrder(n: nat, m: real, more: nat, bigger: real)
    requires n <= more && 0.0 <= m <= bigger
    ensures 0 <= Scaled(n, m) <= Scaled(more, bigger)
  {
    RoundedProductOrder(n as real, m, more as real, bigger);
  }

  lemma ScaledByOne(n: int)
    ensures Scaled(n, 1.0) == n
  {
    RoundOfInt(n);
  }

  lemma HintMultiplierFalls(hints: nat, fewer: nat)
    requires fewer <= hints
    ensures 0.0 <= HintMultiplier(hints) <= HintMultiplier(fewer) <= 1.0
  {
  }

  /** What a round earns before the hint penalty is no less in a round no worse. */
  lemma GrossOrder(i: Input, j: Input)
    requires NoWorse(i, j)
    ensures 0 <= Gross(i) <= Gross(j)
  {
    BonusOrder(i.basePoints, j.basePoints, j.elapsedMs, i.elapsedMs, i.windowMs);
    BonusOrder(i.basePoints, i.basePoints, i.elapsedMs, i.elapsedMs, i.windowMs);
    EarnedOrder(i.basePoints + ComputeSpeedBonus(i.basePoints, i.elapsedMs, i.windowMs),
                j.basePoints + ComputeSpeedBonus(j.basePoints, j.elapsedMs, j.windowMs),
                i.difficulty, j.difficulty, i.streak, j.streak);
  }

  lemma EarnedOrder(n: nat, more: nat, easy: int, hard: int, streak: int, longer: int)
    requires n <= more && easy <= hard && streak <= longer
    ensures 0 <= Scaled(n, DifficultyMultiplier(easy)) + StreakBonusOf(streak)
              <= Scaled(more, DifficultyMultiplier(hard)) + StreakBonusOf(longer)
  {
    ScaledOrder(n, DifficultyMultiplier(easy), more, DifficultyMultiplier(hard));
  }

  lemma PointsOrder(g: nat, h: nat, hints: nat, fewer: nat)
    requires g <= h && fewer <= hints
    ensures 0 <= Scaled(g, HintMultiplier(hints)) <= Scaled(h, HintMultiplier(fewer))
    ensures Scaled(g, HintMultiplier(hints)) <= g
  {
    HintMultiplierFalls(hints, fewer);
    ScaledOrder(g, HintMultiplier(hints), h, HintMultiplier(fewer));
    ScaledOrder(g, HintMultiplier(hints), g, 1.0);
    ScaledByOne(g);
  }

  /**
   * Points are never negative and never more than before the hint penalty, and a
   * round no worse in any respect never scores less.
   */
  lemma BetterRoundsScoreMore(i: Input, j: Input)
    requires NoWorse(i, j)
    ensures 0 <= ScoreRound(i).points <= ScoreRound(j).points
    ensures 0 <= ScoreRound(i).hintPenalty
  {
    GrossOrder(i, j);
    GrossOrder(i, i);
    PointsOrder(Gross(i), Gross(j), i.hintsUsed, j.hintsUsed);
    PointsOrder(Gross(j), Gross(j), j.hintsUsed, j.hintsUsed);
  }

  lemma AnyHintsLeaveSomething(g: nat, hints: nat)
    requires g >= 50 && hints <= MAX_HINTS
    ensures Scaled(g, HintMultiplier(hints)) > 0
  {
    assert HintMultiplier(hints) >= 0.25;
    ScaledOrder(50, 0.25, g, HintMultiplier(hints));
    assert 50.0 * 0.25 == 12.5;
  }

  /** A matched answer with the hints the game allows scores exactly when it is correct and in time. */
  lemma AnswersScoreExactlyWhen(i: Input)
    requires i.basePoints >= PARTIAL_MATCH && i.hintsUsed <= MAX_HINTS
    ensures ScoreRound(i).points > 0 <==> i.isCorrect && i.elapsedMs <= i.windowMs
  {
    BonusOrder(i.basePoints, i.basePoints, i.elapsedMs, i.elapsedMs, i.windowMs);
    EarnedOrder(50, i.basePoints + ComputeSpeedBonus(i.basePoints, i.elapsedMs, i.windowMs),
                Min(2, i.difficulty), i.difficulty, Min(0, i.streak), i.streak);
    ScaledByOne(50);
    AnyHintsLeaveSomething(Gross(i), i.hintsUsed);
  }

  /** The most a round can score for these hints, difficulty and streak. */
  function Ceiling(hints: nat, difficulty: int, streak: int): int {
    Scaled(Scaled(150, DifficultyMultiplier(difficulty)) + StreakBonusOf(streak), HintMultiplier(hints))
  }

  lemma PointsStayUnderCeiling(i: Input)
    requires i.basePoints <= CORRECT_GUESS
    ensures ScoreRound(i).points <= Ceiling(i.hintsUsed, i.difficulty, i.streak)
  {
    BonusBound(i.basePoints, i.elapsedMs, i.windowMs);
    EarnedOrder(i.basePoints + ComputeSpeedBonus(i.basePoints, i.elapsedMs, i.windowMs), 150,
                i.difficulty, i.difficulty, i.streak, i.streak);
    PointsOrder(Gross(i), Scaled(150, DifficultyMultiplier(i.difficulty)) + StreakBonusOf(i.streak),
                i.hintsUsed, i.hintsUsed);
  }

  /** A full answer at the first instant reaches the ceiling. */
  lemma CeilingIsReached(hints: nat, difficulty: int, streak: int, windowMs: nat)
    requires windowMs > 0
    ensures ScoreRound(Input(100, true, 0, windowMs, hints, difficulty, streak)).points
         == Ceiling(hints, difficulty, streak)
  {
    assert 0.0 / windowMs as real == 0.0;
    assert Remaining(0, windowMs) == 1.0;
    RoundOfInt(50);
    assert ComputeSpeedBonus(100, 0, windowMs) == 50;
  }

  /** In points: 150, 225 or 300 by difficulty without hints, 25 more per round of the streak, 0 after four hints. */
  lemma CeilingInPoints(difficulty: int, streak: int, hints: nat)
    ensures Ceiling(0, difficulty, streak)
         == (if difficulty <= 2 then 150 else if difficulty == 3 then 225 else 300) + 25 * Max(streak, 0)
    ensures hints >= 4 ==> Ceiling(hints, difficulty, streak) == 0
  {
    RoundOfInt(150);
    RoundOfInt(225);
    RoundOfInt(300);
    ScaledByOne(Scaled(150, DifficultyMultiplier(difficulty)) + StreakBonusOf(streak));
  }

  /** The advertised maximum by hints taken: 150, 113, 75, 38 and then nothing. */
  lemma AdvertisedMaximum(hints: nat)
    ensures MaxRoundPoints(hints) == (match hints case 0 => 150 case 1 => 113 case 2 => 75 case 3 => 38 case _ => 0)
  {
    PointsAreNearest(150, hints);
  }

  predicate Fits(i: Input, hints: nat, difficulty: int, streak: int) {
    i.basePoints <= CORRECT_GUESS && i.hintsUsed == hints && i.difficulty == difficulty && i.streak == streak
  }

  /** No round with these hints, difficulty and streak scores more than the advertised maximum. */
  ghost predicate CapHolds(hints: nat, difficulty: int, streak: int) {
    forall i: Input | Fits(i, hints, difficulty, streak) :: ScoreRound(i).points <= MaxRoundPoints(hints)
  }

  /**
   * The advertised maximum is a maximum exactly for easy rounds without a streak,
   * or when the hints have eaten everything; the default difficulty 3 exceeds it.
   */
  lemma CapHoldsExactlyWhen(hints: nat, difficulty: int, streak: int)
    ensures CapHolds(hints, difficulty, streak) <==> (difficulty <= 2 && streak <= 0) || hints >= 4
  {
    CapVersusCeiling(hints, difficulty, streak);
    if Ceiling(hints, difficulty, streak) <= MaxRoundPoints(hints) {
      forall i: Input | Fits(i, hints, difficulty, streak)
        ensures ScoreRound(i).points <= MaxRoundPoints(hints)
      {
        PointsStayUnderCeiling(i);
      }
    } else {
      CeilingIsReached(hints, difficulty, streak, 1000);
      var best := Input(100, true, 0, 1000, hints, difficulty, streak);
      assert Fits(best, hints, difficulty, streak);
      assert ScoreRound(best).points > MaxRoundPoints(hints);
    }
  }

  lemma CapVersusCeiling(hints: nat, difficulty: int, streak: int)
    ensures Ceiling(hints, difficulty, streak) <= MaxRoundPoints(hints)
       <==> (difficulty <= 2 && streak <= 0) || hints >= 4
  {
    var gross := Scaled(150, DifficultyMultiplier(difficulty)) + StreakBonusOf(streak);
    RoundOfInt(150);
    RoundOfInt(225);
    RoundOfInt(300);
    assert gross == 150 <==> difficulty <= 2 && streak <= 0;
    assert gross != 150 ==> gross >= 175;
    if hints >= 4 {
      assert HintMultiplier(hints) == 0.0;
    } else if gross != 150 {
      PointsOrder(175, gross, hints, hints);
      assert Scaled(175, HintMultiplier(hints)) > Scaled(150, HintMultiplier(hints));
    }
  }
}
