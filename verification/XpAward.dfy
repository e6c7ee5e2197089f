/** The level curve and the two statements by which a correct guess is awarded. */
module XpLevels {
  import opened Prelude

  datatype Title = GossipRookie | WordWhisperer | LyricSniper | BarGenius | GossipGuru

  /** A band of XP; no upper end stands for infinity. */
  datatype Threshold = Threshold(min: int, max: Option<int>, level: nat, title: Title)

  const LEVEL_THRESHOLDS: seq<Threshold> := [
    Threshold(0, Some(99), 1, GossipRookie),
    Threshold(100, Some(299), 2, WordWhisperer),
    Threshold(300, Some(599), 3, LyricSniper),
    Threshold(600, Some(999), 4, BarGenius),
    Threshold(1000, None, 5, GossipGuru)]

  const XP_PER_CORRECT_GUESS: int := 10

  predicate Covers(t: Threshold, xp: int) {
    t.min <= xp && (t.max.Some? ==> xp <= t.max.value)
  }

  /** The first band, from the i-th on, that covers the XP; the first band of all when none does. */
  function Find(xp: int, i: nat): Threshold
    requires i <= |LEVEL_THRESHOLDS|
    decreases |LEVEL_THRESHOLDS| - i
  {
    if i == |LEVEL_THRESHOLDS| then LEVEL_THRESHOLDS[0]
    else if Covers(LEVEL_THRESHOLDS[i], xp) then LEVEL_THRESHOLDS[i]
    else Find(xp, i + 1)
  }

  function Level(xp: int): nat {
    Find(xp, 0).level
  }

  function TitleFor(xp: int): Title {
    Find(xp, 0).title
  }

  /** The bands leave no gap: the level counts the thresholds reached, and the title goes with the level. */
  lemma LevelBands(xp: int)
    ensures Level(xp) == 1 + (if xp >= 100 then 1 else 0) + (if xp >= 300 then 1 else 0)
                           + (if xp >= 600 then 1 else 0) + (if xp >= 1000 then 1 else 0)
    ensures TitleFor(xp) == TitleOf(Level(xp))
  {
    assert Find(xp, 5) == LEVEL_THRESHOLDS[0];
    assert Find(xp, 4) == if xp >= 1000 then LEVEL_THRESHOLDS[4] else LEVEL_THRESHOLDS[0];
    assert Find(xp, 3) == if 600 <= xp <= 999 then LEVEL_THRESHOLDS[3] else Find(xp, 4);
    assert Find(xp, 2) == if 300 <= xp <= 599 then LEVEL_THRESHOLDS[2] else Find(xp, 3);
    assert Find(xp, 1) == if 100 <= xp <= 299 then LEVEL_THRESHOLDS[1] else Find(xp, 2);
  }

  function TitleOf(level: nat): Title {
    if level <= 1 then GossipRookie
    else if level == 2 then WordWhisperer
    else if level == 3 then LyricSniper
    else if level == 4 then BarGenius
    else GossipGuru
  }

  datatype UserRow = UserRow(xp: int, level: nat, title: Title)

  /** The award itself. */
  function Increment(row: UserRow): UserRow {
    row.(xp := row.xp + XP_PER_CORRECT_GUESS)
  }

  /** After reading back (xp, level): raise the level, guarded by `level < new`. */
  function RaiseLevel(row: UserRow, xp: int, level: nat): UserRow {
    if Level(xp) > level && row.level < Level(xp) then row.(level := Level(xp), title := TitleFor(xp)) else row
  }

  predicate Consistent(row: UserRow) {
    row.level == Level(row.xp) && row.title == TitleFor(row.xp)
  }

  datatype XpResult = XpResult(xp: int, level: nat, title: Title)

  class UsersTable {
    var rows: map<string, UserRow>

    /** The first statement: adds the award to one row, in one go, and reads the new XP and the level back. */
    method IncrementReturning(userId: string) returns (updated: Option<(int, nat)>)
      modifies this
      ensures userId !in old(rows) ==> updated.None? && rows == old(rows)
      ensures userId in old(rows) ==>
                && rows == old(rows)[userId := Increment(old(rows)[userId])]
                && updated == Some((rows[userId].xp, rows[userId].level))
    {
      if userId !in rows {
        return None;
      }
      var row := rows[userId];
      row := row.(xp := row.xp + XP_PER_CORRECT_GUESS);
      rows := rows[userId := row];
      updated := Some((row.xp, row.level));
    }

    /** The second statement: writes level and title, but only over a lower level. */
    method SetLevelIfBelow(userId: string, level: nat, title: Title)
      modifies this
      ensures userId in old(rows) && old(rows)[userId].level < level ==>
                rows == old(rows)[userId := old(rows)[userId].(level := level, title := title)]
      ensures !(userId in old(rows) && old(rows)[userId].level < level) ==> rows == old(rows)
    {
      if userId in rows && rows[userId].level < level {
        rows := rows[userId := rows[userId].(level := level, title := title)];
      }
    }

    /** One award with nobody else at work. */
    method HandleCorrectGuess(userId: string) returns (r: Option<XpResult>)
      modifies this
      ensures r.None? <==> userId !in old(rows)
      ensures r.None? ==> rows == old(rows)
      ensures r.Some? ==>
                var row := Increment(old(rows)[userId]);
                && rows == old(rows)[userId := RaiseLevel(row, row.xp, row.level)]
                && r.value == XpResult(row.xp, Level(row.xp), TitleFor(row.xp))
      ensures r.Some? && Consistent(old(rows)[userId]) ==> Consistent(rows[userId])
    {
      var updated := IncrementReturning(userId);
      if updated.None? {
        return None;
      }
      var (newXp, seenLevel) := updated.value;
      var level, title := Level(newXp), TitleFor(newXp);
      LevelBands(newXp);
      LevelBands(newXp - XP_PER_CORRECT_GUESS);
      if level > seenLevel {
        SetLevelIfBelow(userId, level, title);
      }
      r := Some(XpResult(newXp, level, title));
    }
  }
}

/** Any number of awards to one user at once: each is an increment, then a guarded level write. */
module ConcurrentAwards {
  import opened XpLevels

  /** Where one award has got to; after the increment it holds what the statement returned. */
  datatype Award = Waiting | Incremented(xp: int, level: nat) | Finished(xp: int)

  datatype State = State(row: UserRow, awards: seq<Award>)

  /** Award p takes its next statement, if it has one left. */
  function Step(s: State, p: nat): State {
    if p >= |s.awards| then s
    else
      match s.awards[p]
      case Waiting =>
        var row := Increment(s.row);
        State(row, s.awards[p := Incremented(row.xp, row.level)])
      case Incremented(xp, level) => State(RaiseLevel(s.row, xp, level), s.awards[p := Finished(xp)])
      case Finished(_) => s
  }

  function After(s: State, schedule: seq<nat>): State
    decreases |schedule|
  {
    if schedule == [] then s else Step(After(s, schedule[..|schedule| - 1]), schedule[|schedule| - 1])
  }

  function Started(awards: seq<Award>): nat {
    if awards == [] then 0
    else Started(awards[..|awards| - 1]) + if awards[|awards| - 1].Waiting? then 0 else 1
  }

  /** Some award has yet to write the level for the row's present XP. */
  ghost predicate LatestPending(s: State) {
    exists p :: 0 <= p < |s.awards| && s.awards[p].Incremented? && s.awards[p].xp == s.row.xp
  }

  ghost predicate Inv(start: UserRow, s: State) {
    && s.row.xp == start.xp + XP_PER_CORRECT_GUESS * Started(s.awards)
    && start.level <= s.row.level <= Level(s.row.xp)
    && s.row.title == TitleOf(s.row.level)
    && (forall p :: 0 <= p < |s.awards| && !s.awards[p].Waiting? ==> start.xp < s.awards[p].xp <= s.row.xp)
    && (forall p :: 0 <= p < |s.awards| && s.awards[p].Incremented? ==> s.awards[p].level <= s.row.level)
    && (forall p, q :: 0 <= p < q < |s.awards| && !s.awards[p].Waiting? && !s.awards[q].Waiting? ==>
          s.awards[p].xp != s.awards[q].xp)
    && (!LatestPending(s) ==> s.row.level == Level(s.row.xp))
  }

  lemma LevelIsMonotone(x: int, y: int)
    requires x <= y
    ensures Level(x) <= Level(y)
  {
    LevelBands(x);
    LevelBands(y);
  }

  lemma {:induction false} StartedUpdate(awards: seq<Award>, p: nat, a: Award)
    requires p < |awards| && !a.Waiting?
    ensures Started(awards[p := a]) == Started(awards) + if awards[p].Waiting? then 1 else 0
  {
    var n := |awards| - 1;
    if p == n {
      assert awards[p := a][..n] == awards[..n];
    } else {
      assert awards[p := a][..n] == awards[..n][p := a];
      StartedUpdate(awards[..n], p, a);
    }
  }

  lemma {:induction false} NobodyStarted(awards: seq<Award>)
    requires forall p :: 0 <= p < |awards| ==> awards[p].Waiting?
    ensures Started(awards) == 0
  {
    if awards != [] {
      NobodyStarted(awards[..|awards| - 1]);
    }
  }

  lemma {:induction false} EverybodyStarted(awards: seq<Award>)
    requires forall p :: 0 <= p < |awards| ==> !awards[p].Waiting?
    ensures Started(awards) == |awards|
  {
    if awards != [] {
      EverybodyStarted(awards[..|awards| - 1]);
    }
  }

  lemma IncrementKeepsInv(start: UserRow, s: State, p: nat)
    requires Inv(start, s) && p < |s.awards| && s.awards[p].Waiting?
    ensures Inv(start, Step(s, p))
  {
    var s' := Step(s, p);
    StartedUpdate(s.awards, p, s'.awards[p]);
    LevelIsMonotone(s.row.xp, s'.row.xp);
    assert s'.awards[p].Incremented? && s'.awards[p].xp == s'.row.xp;
    assert LatestPending(s');
  }

  lemma FinishKeepsInv(start: UserRow, s: State, p: nat)
    requires Inv(start, s) && p < |s.awards| && s.awards[p].Incremented?
    ensures Inv(start, Step(s, p))
  {
    var s' := Step(s, p);
    var x := s.awards[p].xp;
    StartedUpdate(s.awards, p, s'.awards[p]);
    LevelIsMonotone(x, s.row.xp);
    LevelBands(x);
    if x != s.row.xp && LatestPending(s) {
      var q :| 0 <= q < |s.awards| && s.awards[q].Incremented? && s.awards[q].xp == s.row.xp;
      assert s'.awards[q] == s.awards[q];
    }
  }

  lemma StepKeepsInv(start: UserRow, s: State, p: nat)
    requires Inv(start, s)
    ensures Inv(start, Step(s, p))
    ensures s.row.level <= Step(s, p).row.level && s.row.xp <= Step(s, p).row.xp
  {
    if p < |s.awards| {
      match s.awards[p] {
        case Waiting => IncrementKeepsInv(start, s, p);
        case Incremented(_, _) => FinishKeepsInv(start, s, p);
        case Finished(_) =>
      }
    }
  }

  ghost predicate AllWaiting(s: State) {
    forall p :: 0 <= p < |s.awards| ==> s.awards[p].Waiting?
  }

  ghost predicate AllFinished(s: State) {
    forall p :: 0 <= p < |s.awards| ==> s.awards[p].Finished?
  }

  lemma {:induction false} RunKeepsInv(s: State, schedule: seq<nat>)
    requires Consistent(s.row) && AllWaiting(s)
    ensures Inv(s.row, After(s, schedule)) && |After(s, schedule).awards| == |s.awards|
    decreases |schedule|
  {
    if schedule == [] {
      NobodyStarted(s.awards);
      LevelBands(s.row.xp);
    } else {
      RunKeepsInv(s, schedule[..|schedule| - 1]);
      StepKeepsInv(s.row, After(s, schedule[..|schedule| - 1]), schedule[|schedule| - 1]);
    }
  }

  /** Under every interleaving, level and XP only go up and the level never runs ahead of the XP. */
  lemma {:induction false} LevelNeverRunsAhead(s: State, schedule: seq<nat>, k: nat)
    requires Consistent(s.row) && AllWaiting(s) && k <= |schedule|
    ensures After(s, schedule[..k]).row.level <= After(s, schedule).row.level <= Level(After(s, schedule).row.xp)
    ensures After(s, schedule[..k]).row.xp <= After(s, schedule).row.xp
    decreases |schedule|
  {
    RunKeepsInv(s, schedule);
    if k < |schedule| {
      var n := |schedule| - 1;
      LevelNeverRunsAhead(s, schedule[..n], k);
      RunKeepsInv(s, schedule[..n]);
      StepKeepsInv(s.row, After(s, schedule[..n]), schedule[n]);
      assert schedule[..n][..k] == schedule[..k];
    } else {
      assert schedule[..k] == schedule;
    }
  }

  /**
   * Once every award has finished, none was lost and the level is the one for
   * the total; each award was told a different total.
   */
  lemma AllAwardsCount(s: State, schedule: seq<nat>)
    requires Consistent(s.row) && AllWaiting(s) && AllFinished(After(s, schedule))
    ensures var end := After(s, schedule);
            && end.row.xp == s.row.xp + 10 * |s.awards|
            && Consistent(end.row)
            && forall p, q :: 0 <= p < q < |end.awards| ==> end.awards[p].xp != end.awards[q].xp
  {
    RunKeepsInv(s, schedule);
    EverybodyStarted(After(s, schedule).awards);
    LevelBands(After(s, schedule).row.xp);
  }
}
