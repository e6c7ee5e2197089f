/**
 * The best-streak query. Rows arrive in play order (created time, then id); the
 * query numbers them over all guesses and within each outcome, and groups the
 * correct ones by the difference of the two numbers.
 */
module StreakQuery {
  import opened Prelude

  datatype Row = Row(isCorrect: bool, pointsAwarded: int, xpChange: int)

  datatype Stats = Stats(
    totalGames: nat, correctGuesses: nat, totalPointsEarned: int, totalXpGained: int, bestStreak: nat)

  // ----- The query -----

  /** How many of the first n rows have this outcome. */
  function CountOf(rows: seq<Row>, outcome: bool, n: nat): nat
    requires n <= |rows|
  {
    if n == 0 then 0 else CountOf(rows, outcome, n - 1) + if rows[n - 1].isCorrect == outcome then 1 else 0
  }

  /** The row's place among all rows less its place among the rows of its own outcome. */
  function RunOf(rows: seq<Row>, i: nat): int
    requires i < |rows|
  {
    (i + 1) - CountOf(rows, rows[i].isCorrect, i + 1)
  }

  /** Row i is counted in the group of run g. */
  predicate InGroup(rows: seq<Row>, g: int, i: nat) {
    i < |rows| && rows[i].isCorrect && RunOf(rows, i) == g
  }

  /** How many of the first n rows lie in the group of run g. */
  function GroupSize(rows: seq<Row>, g: int, n: nat): nat
    requires n <= |rows|
  {
    if n == 0 then 0 else GroupSize(rows, g, n - 1) + if InGroup(rows, g, n - 1) then 1 else 0
  }

  /** The largest of the groups that the first n rows belong to, 0 when there is none. */
  function MaxLength(rows: seq<Row>, n: nat): nat
    requires n <= |rows|
  {
    if n == 0 then 0
    else if rows[n - 1].isCorrect then Max(MaxLength(rows, n - 1), GroupSize(rows, RunOf(rows, n - 1), |rows|))
    else MaxLength(rows, n - 1)
  }

  function SumPoints(rows: seq<Row>): int {
    if rows == [] then 0 else SumPoints(rows[..|rows| - 1]) + rows[|rows| - 1].pointsAwarded
  }

  function SumXp(rows: seq<Row>): int {
    if rows == [] then 0 else SumXp(rows[..|rows| - 1]) + rows[|rows| - 1].xpChange
  }

  function UserStats(rows: seq<Row>): Stats {
    Stats(|rows|, CountOf(rows, true, |rows|), SumPoints(rows), SumXp(rows), MaxLength(rows, |rows|))
  }

  // ----- What a streak is -----

  /** Consecutive correct guesses from lo up to hi. */
  ghost predicate Block(rows: seq<Row>, lo: nat, hi: nat) {
    lo <= hi <= |rows| && forall i :: lo <= i < hi ==> rows[i].isCorrect
  }

  ghost predicate IsLongestBlock(rows: seq<Row>, length: nat) {
    && (exists lo: nat, hi: nat :: Block(rows, lo, hi) && hi - lo == length)
    && (forall lo: nat, hi: nat :: Block(rows, lo, hi) ==> hi - lo <= length)
  }

  // ----- Runs tell streaks apart -----

  /** For a correct row the difference counts the incorrect rows before it. */
  lemma {:induction false} RunCountsMisses(rows: seq<Row>, n: nat)
    requires n <= |rows|
    ensures CountOf(rows, true, n) + CountOf(rows, false, n) == n
  {
    if n > 0 {
      RunCountsMisses(rows, n - 1);
    }
  }

  lemma {:induction false} MissesGrow(rows: seq<Row>, i: nat, j: nat)
    requires i <= j <= |rows|
    ensures CountOf(rows, false, i) <= CountOf(rows, false, j)
    ensures CountOf(rows, false, i) == CountOf(rows, false, j) <==> Block(rows, i, j)
    decreases j
  {
    if i < j {
      MissesGrow(rows, i, j - 1);
    }
  }

  /** Two correct rows share a run exactly when every row between them is correct. */
  lemma SameRunExactlyWhenUnbroken(rows: seq<Row>, i: nat, j: nat)
    requires i <= j < |rows| && rows[i].isCorrect && rows[j].isCorrect
    ensures RunOf(rows, i) == RunOf(rows, j) <==> Block(rows, i, j)
  {
    RunCountsMisses(rows, i + 1);
    RunCountsMisses(rows, j + 1);
    MissesGrow(rows, i, j);
  }

  /** The rows of one group are consecutive. */
  lemma {:induction false} GroupIsInterval(rows: seq<Row>, g: int, n: nat) returns (from: nat, end: nat)
    requires n <= |rows|
    ensures from <= end <= n && GroupSize(rows, g, n) == end - from
    ensures forall i: nat :: i < n ==> (InGroup(rows, g, i) <==> from <= i < end)
    decreases n
  {
    if n == 0 {
      from, end := 0, 0;
    } else {
      from, end := GroupIsInterval(rows, g, n - 1);
      if InGroup(rows, g, n - 1) {
        if from == end {
          from, end := n - 1, n;
        } else {
          NoGapBefore(rows, g, end - 1, n - 1);
          end := n;
        }
      }
    }
  }

  /** Between two rows of a group there are only rows of that group. */
  lemma NoGapBefore(rows: seq<Row>, g: int, i: nat, j: nat)
    requires i <= j && InGroup(rows, g, i) && InGroup(rows, g, j)
    ensures forall k: nat :: i <= k <= j ==> InGroup(rows, g, k)
  {
    SameRunExactlyWhenUnbroken(rows, i, j);
    forall k: nat | i <= k <= j
      ensures InGroup(rows, g, k)
    {
      assert rows[k].isCorrect;
      SameRunExactlyWhenUnbroken(rows, i, k);
    }
  }

  /** A group's size is the length of the streak each of its rows lies in. */
  lemma GroupSizeIsStreakLength(rows: seq<Row>, i: nat) returns (lo: nat)
    requires i < |rows| && rows[i].isCorrect
    ensures lo <= i < lo + GroupSize(rows, RunOf(rows, i), |rows|)
    ensures Block(rows, lo, lo + GroupSize(rows, RunOf(rows, i), |rows|))
    ensures forall a: nat, b: nat :: Block(rows, a, b) && a <= i < b ==>
              b - a <= GroupSize(rows, RunOf(rows, i), |rows|)
  {
    var g := RunOf(rows, i);
    var end;
    lo, end := GroupIsInterval(rows, g, |rows|);
    assert InGroup(rows, g, i);
    forall k | lo <= k < end
      ensures rows[k].isCorrect
    {
      assert InGroup(rows, g, k);
    }
    forall a: nat, b: nat | Block(rows, a, b) && a <= i < b
      ensures b - a <= end - lo
    {
      assert Block(rows, a, i) && Block(rows, i, b - 1);
      SameRunExactlyWhenUnbroken(rows, a, i);
      SameRunExactlyWhenUnbroken(rows, i, b - 1);
      assert InGroup(rows, g, a) && InGroup(rows, g, b - 1);
    }
  }

  lemma {:induction false} MaxLengthCovers(rows: seq<Row>, n: nat, i: nat)
    requires i < n <= |rows| && rows[i].isCorrect
    ensures GroupSize(rows, RunOf(rows, i), |rows|) <= MaxLength(rows, n)
  {
    if i < n - 1 {
      MaxLengthCovers(rows, n - 1, i);
    }
  }

  lemma {:induction false} MaxLengthIsReached(rows: seq<Row>, n: nat) returns (lo: nat)
    requires n <= |rows|
    ensures Block(rows, lo, lo + MaxLength(rows, n))
  {
    if n == 0 {
      lo := 0;
    } else {
      lo := MaxLengthIsReached(rows, n - 1);
      if rows[n - 1].isCorrect && MaxLength(rows, n) != MaxLength(rows, n - 1) {
        lo := GroupSizeIsStreakLength(rows, n - 1);
      }
    }
  }

  /** The query's best streak is the longest block of consecutive correct guesses, and 0 when there is none. */
  lemma BestStreakIsLongestBlock(rows: seq<Row>)
    ensures IsLongestBlock(rows, UserStats(rows).bestStreak)
    ensures UserStats(rows).bestStreak == 0 <==> UserStats(rows).correctGuesses == 0
  {
    var best := MaxLength(rows, |rows|);
    var at := MaxLengthIsReached(rows, |rows|);
    assert Block(rows, at, at + best);
    forall lo: nat, hi: nat | Block(rows, lo, hi)
      ensures hi - lo <= best
    {
      if lo < hi {
        var from := GroupSizeIsStreakLength(rows, lo);
        MaxLengthCovers(rows, |rows|, lo);
      }
    }
    NoHitsMeansNoBlock(rows, |rows|);
    assert best > 0 ==> rows[at].isCorrect;
    if CountOf(rows, true, |rows|) > 0 {
      var i :| 0 <= i < |rows| && rows[i].isCorrect;
      assert Block(rows, i, i + 1);
    }
  }

  lemma {:induction false} NoHitsMeansNoBlock(rows: seq<Row>, n: nat)
    requires n <= |rows|
    ensures CountOf(rows, true, n) == 0 <==> forall i :: 0 <= i < n ==> !rows[i].isCorrect
  {
    if n > 0 {
      NoHitsMeansNoBlock(rows, n - 1);
    }
  }

  // ----- One more guess -----

  /** Before any guess every figure is 0; with OneMoreGuess this fixes the statistics of every history. */
  lemma NoGuessesYet()
    ensures UserStats([]) == Stats(0, 0, 0, 0, 0)
  {
  }

  /** How many correct guesses the history ends with. */
  function Trailing(rows: seq<Row>): (n: nat)
    ensures n <= |rows| && forall i :: |rows| - n <= i < |rows| ==> rows[i].isCorrect
    ensures n < |rows| ==> !rows[|rows| - n - 1].isCorrect
  {
    if rows == [] || !rows[|rows| - 1].isCorrect then 0 else Trailing(rows[..|rows| - 1]) + 1
  }

  lemma {:induction false} CountOfPrefix(rows: seq<Row>, r: Row, outcome: bool, n: nat)
    requires n <= |rows|
    ensures CountOf(rows + [r], outcome, n) == CountOf(rows, outcome, n)
  {
    if n > 0 {
      CountOfPrefix(rows, r, outcome, n - 1);
    }
  }

  /** A block of the longer history that reaches its end lies in the trailing streak and the new guess. */
  lemma BlockOfLonger(rows: seq<Row>, r: Row, lo: nat, hi: nat)
    requires Block(rows + [r], lo, hi)
    ensures hi <= |rows| ==> Block(rows, lo, hi)
    ensures hi == |rows| + 1 && lo < hi ==> r.isCorrect && hi - lo <= Trailing(rows) + 1
  {
    var longer := rows + [r];
    if hi <= |rows| {
      forall i | lo <= i < hi ensures rows[i].isCorrect {
        assert longer[i].isCorrect;
      }
    } else if lo < hi {
      assert longer[|rows|].isCorrect;
      var t := Trailing(rows);
      if hi - lo > t + 1 {
        assert longer[|rows| - t - 1].isCorrect;
      }
    }
  }

  lemma LongestIsUnique(rows: seq<Row>, m: nat, n: nat)
    requires IsLongestBlock(rows, m) && IsLongestBlock(rows, n)
    ensures m == n
  {
    var a: nat, b: nat :| Block(rows, a, b) && b - a == m;
    var c: nat, d: nat :| Block(rows, c, d) && d - c == n;
  }

  lemma LongestOfLonger(rows: seq<Row>, r: Row, best: nat)
    requires IsLongestBlock(rows, best)
    ensures IsLongestBlock(rows + [r], if r.isCorrect then Max(best, Trailing(rows) + 1) else best)
  {
    var longer, t := rows + [r], Trailing(rows);
    var lo: nat, hi: nat :| Block(rows, lo, hi) && hi - lo == best;
    assert Block(longer, lo, hi);
    if r.isCorrect {
      assert Block(longer, |rows| - t, |rows| + 1);
    }
    forall a: nat, b: nat | Block(longer, a, b)
      ensures b - a <= if r.isCorrect then Max(best, t + 1) else best
    {
      BlockOfLonger(rows, r, a, b);
    }
  }

  /**
   * Recording one more guess adds its points and XP to the totals, and moves the
   * best streak only if the guess is correct and extends the trailing streak
   * past it.
   */
  lemma OneMoreGuess(rows: seq<Row>, r: Row)
    ensures var before, now := UserStats(rows), UserStats(rows + [r]);
            && now.totalGames == before.totalGames + 1
            && now.correctGuesses == before.correctGuesses + (if r.isCorrect then 1 else 0)
            && now.totalPointsEarned == before.totalPointsEarned + r.pointsAwarded
            && now.totalXpGained == before.totalXpGained + r.xpChange
            && now.bestStreak == if r.isCorrect then Max(before.bestStreak, Trailing(rows) + 1) else before.bestStreak
  {
    CountOfPrefix(rows, r, true, |rows|);
    assert (rows + [r])[..|rows|] == rows;
    BestStreakIsLongestBlock(rows);
    BestStreakIsLongestBlock(rows + [r]);
    LongestOfLonger(rows, r, UserStats(rows).bestStreak);
    var best := UserStats(rows).bestStreak;
    LongestIsUnique(rows + [r], UserStats(rows + [r]).bestStreak,
                    if r.isCorrect then Max(best, Trailing(rows) + 1) else best);
  }
}
