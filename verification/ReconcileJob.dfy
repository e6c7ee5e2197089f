/**
 * The sweep over wagers stuck in SETTLING: one visit per wager, exponential
 * backoff between failed attempts, and a give-up that only moves a wager still
 * in SETTLING. What the wager service does during a visit is arbitrary.
 */
module ReconcileJob {
  import opened Prelude

  type WagerId = string

  datatype WagerStatus = Pending | AwaitingStakes | Staked | Settling | Won | Refunded | Failed

  datatype Attempt = Attempt(count: nat, nextAt: int)

  /** Both settings are forced positive when they are read. */
  datatype Limits = Limits(maxAttempts: nat, baseDelayMs: nat)

  /**
   * One turn of the loop: the clock when the wager comes up, whether the
   * reconciliation succeeds, the status it leaves behind, and the clock afterwards.
   */
  datatype Visit = Visit(wager: WagerId, startedAt: int, success: bool, statusAfter: WagerStatus, endedAt: int)

  datatype State = State(attempts: map<WagerId, Attempt>, wagers: map<WagerId, WagerStatus>)

  function AttemptOf(s: State, w: WagerId): Attempt {
    if w in s.attempts then s.attempts[w] else Attempt(0, 0)
  }

  /** The visit is not held back by the backoff. */
  predicate Due(s: State, v: Visit) {
    v.startedAt >= AttemptOf(s, v.wager).nextAt
  }

  predicate GivesUp(s: State, limits: Limits, v: Visit) {
    Due(s, v) && !v.success && AttemptOf(s, v.wager).count + 1 >= limits.maxAttempts
  }

  function VisitStep(s: State, limits: Limits, v: Visit): State {
    if !Due(s, v) then s
    else
      var w := v.wager;
      var wagers := s.wagers[w := v.statusAfter];
      if v.success then State(s.attempts - {w}, wagers)
      else
        var count := AttemptOf(s, w).count + 1;
        if count >= limits.maxAttempts then
          State(s.attempts - {w}, if v.statusAfter == Settling then wagers[w := Failed] else wagers)
        else State(s.attempts[w := Attempt(count, v.endedAt + limits.baseDelayMs * TwoTo(count - 1))], wagers)
  }

  // ----- Runs: visits, other code changing wagers, and restarts -----

  datatype Op =
    | Turn(v: Visit)
    | Outside(w: WagerId, status: WagerStatus)
    | Restart

  function Step(s: State, limits: Limits, op: Op): State {
    match op
    case Turn(v) => VisitStep(s, limits, v)
    case Outside(w, status) => s.(wagers := s.wagers[w := status])
    case Restart => s.(attempts := map[])
  }

  function After(s: State, limits: Limits, ops: seq<Op>): State
    decreases |ops|
  {
    if ops == [] then s else Step(After(s, limits, ops[..|ops| - 1]), limits, ops[|ops| - 1])
  }

  /** The turns of one sweep. */
  function Turns(visits: seq<Visit>): seq<Op> {
    seq(|visits|, i requires 0 <= i < |visits| => Turn(visits[i]))
  }

  lemma OneMoreTurn(s: State, limits: Limits, visits: seq<Visit>, i: nat)
    requires i < |visits|
    ensures After(s, limits, Turns(visits[..i + 1])) == VisitStep(After(s, limits, Turns(visits[..i])), limits, visits[i])
  {
    assert Turns(visits[..i + 1])[..i] == Turns(visits[..i]);
  }

  lemma PutThenRemove(attempts: map<WagerId, Attempt>, w: WagerId, a: Attempt)
    ensures attempts[w := a] - {w} == attempts - {w}
  {
  }

  class WagerReconcileJob {
    var attempts: map<WagerId, Attempt>
    var wagers: map<WagerId, WagerStatus>

    ghost function Now(): State
      reads this
    {
      State(attempts, wagers)
    }

    constructor (wagers: map<WagerId, WagerStatus>)
      ensures Now() == State(map[], wagers)
    {
      this.attempts := map[];
      this.wagers := wagers;
    }

    /** The sweep over the wagers found stuck; `visits` says how each turn of the loop goes. */
    method ReconcileStuckWagers(limits: Limits, stuck: seq<WagerId>, visits: seq<Visit>)
      requires |visits| == |stuck| && forall i :: 0 <= i < |stuck| ==> visits[i].wager == stuck[i]
      modifies this
      ensures Now() == After(old(Now()), limits, Turns(visits))
    {
      for i := 0 to |stuck|
        invariant Now() == After(old(Now()), limits, Turns(visits[..i]))
      {
        OneMoreTurn(old(Now()), limits, visits, i);
        var w, v := stuck[i], visits[i];
        var state := if w in attempts then attempts[w] else Attempt(0, 0);
        if v.startedAt < state.nextAt {
          continue;
        }
        wagers := wagers[w := v.statusAfter];
        if v.success {
          attempts := attempts - {w};
          continue;
        }
        var count := state.count + 1;
        PutThenRemove(attempts, w, Attempt(count, v.endedAt + limits.baseDelayMs * TwoTo(count - 1)));
        attempts := attempts[w := Attempt(count, v.endedAt + limits.baseDelayMs * TwoTo(count - 1))];
        if count >= limits.maxAttempts {
          if wagers[w] == Settling {
            wagers := wagers[w := Failed];
          }
          attempts := attempts - {w};
        }
      }
      assert visits[..|visits|] == visits;
    }
  }

  /**
   * A visit leaves every wager as the reconciliation left it, except that giving
   * up turns SETTLING, and nothing else, into FAILED.
   */
  lemma OnlySettlingIsFailed(s: State, limits: Limits, v: Visit)
    ensures var s' := VisitStep(s, limits, v);
            && (!Due(s, v) ==> s' == s)
            && (Due(s, v) ==> s'.wagers == s.wagers[v.wager :=
                  if GivesUp(s, limits, v) && v.statusAfter == Settling then Failed else v.statusAfter])
            && (forall w :: w != v.wager ==> AttemptOf(s', w) == AttemptOf(s, w))
  {
  }

  /** The clock never runs backwards, within a visit or from one visit to the next. */
  ghost predicate ClockRuns(ops: seq<Op>) {
    && (forall i :: 0 <= i < |ops| && ops[i].Turn? ==> ops[i].v.startedAt <= ops[i].v.endedAt)
    && (forall i, j :: 0 <= i < j < |ops| && ops[i].Turn? && ops[j].Turn? ==>
          ops[i].v.endedAt <= ops[j].v.startedAt)
  }

  /** When the next attempt may start: at once without failures, else a delay after the last that doubles each time. */
  function NextTry(times: seq<int>, base: nat): int {
    if times == [] then 0 else times[|times| - 1] + base * TwoTo(|times| - 1)
  }

  /** The failures that count after an attempt made with these failures before it. */
  function TimesAfter(times: seq<int>, limits: Limits, v: Visit): seq<int> {
    if v.success || |times| + 1 >= limits.maxAttempts then [] else times + [v.endedAt]
  }

  /**
   * When each failed attempt on w ended, since the last success, give-up or
   * restart: read off the history alone, with no look at the job's records.
   */
  function Failures(limits: Limits, ops: seq<Op>, w: WagerId): (times: seq<int>)
    ensures 0 < limits.maxAttempts ==> |times| < limits.maxAttempts
    decreases |ops|
  {
    if ops == [] then []
    else
      var n := |ops| - 1;
      var before := Failures(limits, ops[..n], w);
      match ops[n]
      case Restart => []
      case Outside(_, _) => before
      case Turn(v) =>
        if v.wager != w || v.startedAt < NextTry(before, limits.baseDelayMs) then before
        else TimesAfter(before, limits, v)
  }

  /** The stored record of w is its number of failures and the time of the next try. */
  ghost predicate RecordIs(s: State, limits: Limits, w: WagerId, times: seq<int>) {
    && (w in s.attempts <==> times != [])
    && (times != [] ==> s.attempts[w] == Attempt(|times|, NextTry(times, limits.baseDelayMs)))
  }

  /** The visit went ahead: the wager is as the reconciliation left it, or given up at the last attempt allowed. */
  ghost predicate WentAhead(s: State, s': State, limits: Limits, v: Visit, times: seq<int>) {
    && s'.wagers == s.wagers[v.wager :=
         if !v.success && |times| + 1 >= limits.maxAttempts && v.statusAfter == Settling then Failed else v.statusAfter]
    && RecordIs(s', limits, v.wager, TimesAfter(times, limits, v))
  }

  lemma VisitFollowsTimes(s: State, limits: Limits, v: Visit, times: seq<int>)
    requires RecordIs(s, limits, v.wager, times) && |times| < limits.maxAttempts
    ensures var s' := VisitStep(s, limits, v);
            if v.startedAt >= NextTry(times, limits.baseDelayMs) then WentAhead(s, s', limits, v, times) else s' == s
    ensures Due(s, v) <==> v.startedAt >= NextTry(times, limits.baseDelayMs)
    ensures AttemptOf(s, v.wager).count == |times|
  {
  }

  /** Over any run the stored record of a wager is the one its failures call for. */
  lemma {:induction false} RecordsAreFailures(s: State, limits: Limits, ops: seq<Op>, w: WagerId)
    requires s.attempts == map[] && 0 < limits.maxAttempts
    ensures RecordIs(After(s, limits, ops), limits, w, Failures(limits, ops, w))
    decreases |ops|
  {
    if ops != [] {
      var n := |ops| - 1;
      RecordsAreFailures(s, limits, ops[..n], w);
      var mid, before := After(s, limits, ops[..n]), Failures(limits, ops[..n], w);
      match ops[n] {
        case Restart =>
        case Outside(_, _) =>
        case Turn(v) =>
          if v.wager == w {
            VisitFollowsTimes(mid, limits, v, before);
          } else {
            OnlySettlingIsFailed(mid, limits, v);
            assert AttemptOf(VisitStep(mid, limits, v), w) == AttemptOf(mid, w);
          }
      }
    }
  }

  /**
   * Over any run a turn takes effect exactly when the wager has no failures and
   * the clock has started, or the doubling delay since its last failure is over;
   * a turn held back changes nothing at all.
   */
  lemma TurnTakesEffectExactlyWhen(s: State, limits: Limits, ops: seq<Op>, v: Visit)
    requires s.attempts == map[] && 0 < limits.maxAttempts
    ensures var mid, times := After(s, limits, ops), Failures(limits, ops, v.wager);
            var s' := Step(mid, limits, Turn(v));
            var free := if times == [] then v.startedAt >= 0
                        else v.startedAt >= times[|times| - 1] + limits.baseDelayMs * TwoTo(|times| - 1);
            && (free ==> WentAhead(mid, s', limits, v, times))
            && (!free ==> s' == mid)
  {
    RecordsAreFailures(s, limits, ops, v.wager);
    VisitFollowsTimes(After(s, limits, ops), limits, v, Failures(limits, ops, v.wager));
  }

  /** The k-th failure and the next are at least base * 2^(k-1) apart, counting from 1. */
  ghost predicate BackedOff(times: seq<int>, base: nat) {
    forall k :: 0 <= k < |times| - 1 ==> times[k + 1] - times[k] >= base * TwoTo(k)
  }

  lemma OneMoreFailure(times: seq<int>, base: nat, endedAt: int)
    requires BackedOff(times, base) && endedAt >= NextTry(times, base)
    ensures BackedOff(times + [endedAt], base)
  {
    var longer := times + [endedAt];
    forall k | 0 <= k < |longer| - 1
      ensures longer[k + 1] - longer[k] >= base * TwoTo(k)
    {
      if k < |times| - 1 {
        assert longer[k] == times[k] && longer[k + 1] == times[k + 1];
      } else {
        assert longer[k] == times[|times| - 1];
      }
    }
  }

  lemma ClockRan(ops: seq<Op>, n: nat)
    requires ClockRuns(ops) && n <= |ops|
    ensures ClockRuns(ops[..n])
  {
    assert forall i :: 0 <= i < n ==> ops[..n][i] == ops[i];
  }

  lemma {:induction false} FailuresAreSpaced(limits: Limits, ops: seq<Op>, w: WagerId)
    requires ClockRuns(ops)
    ensures BackedOff(Failures(limits, ops, w), limits.baseDelayMs)
    decreases |ops|
  {
    if ops != [] {
      var n := |ops| - 1;
      ClockRan(ops, n);
      FailuresAreSpaced(limits, ops[..n], w);
      if ops[n].Turn? {
        var before, v := Failures(limits, ops[..n], w), ops[n].v;
        if v.startedAt >= NextTry(before, limits.baseDelayMs) {
          OneMoreFailure(before, limits.baseDelayMs, v.endedAt);
        }
      }
    }
  }

  /**
   * Over any run: a stored count lies between 1 and max - 1, is the number of
   * failures so far, and the failures are spaced by the doubling delay.
   */
  lemma AttemptsAreFailures(s: State, limits: Limits, ops: seq<Op>, w: WagerId)
    requires s.attempts == map[] && ClockRuns(ops) && 0 < limits.maxAttempts
    ensures var times, attempts := Failures(limits, ops, w), After(s, limits, ops).attempts;
            && (w in attempts <==> times != [])
            && (w in attempts ==> 1 <= attempts[w].count == |times| <= limits.maxAttempts - 1)
            && BackedOff(times, limits.baseDelayMs)
  {
    RecordsAreFailures(s, limits, ops, w);
    FailuresAreSpaced(limits, ops, w);
  }

  /** Doubling delays add up: n gaps after the first failure take at least base * (2^n - 1). */
  lemma {:induction false} GapsAddUp(times: seq<int>, base: nat)
    requires times != [] && BackedOff(times, base)
    ensures times[|times| - 1] - times[0] >= base * (TwoTo(|times| - 1) - 1)
    decreases |times|
  {
    if |times| > 1 {
      var n := |times| - 1;
      assert BackedOff(times[..n], base) by {
        forall k | 0 <= k < n - 1
          ensures times[..n][k + 1] - times[..n][k] >= base * TwoTo(k)
        {
          assert times[k + 1] - times[k] >= base * TwoTo(k);
        }
      }
      GapsAddUp(times[..n], base);
      assert times[n - 1 + 1] - times[n - 1] >= base * TwoTo(n - 1);
      Doubling(base, n);
    }
  }

  lemma Doubling(base: nat, n: nat)
    requires n > 0
    ensures base * (TwoTo(n - 1) - 1) + base * TwoTo(n - 1) == base * (TwoTo(n) - 1)
  {
    var p := TwoTo(n - 1);
    assert TwoTo(n) == 2 * p;
  }

  /**
   * A wager is given up exactly at its max-th failure in a row, and never sooner
   * than base * (2^(max-1) - 1) after the first of them.
   */
  lemma GiveUpComesLate(s: State, limits: Limits, ops: seq<Op>, v: Visit)
    requires s.attempts == map[] && ClockRuns(ops + [Turn(v)]) && 0 < limits.maxAttempts
    requires v.startedAt >= NextTry(Failures(limits, ops, v.wager), limits.baseDelayMs) && !v.success
    ensures var before := Failures(limits, ops, v.wager);
            && (GivesUp(After(s, limits, ops), limits, v) <==> |before| == limits.maxAttempts - 1)
            && (GivesUp(After(s, limits, ops), limits, v) && before != [] ==>
                  v.endedAt - before[0] >= limits.baseDelayMs * (TwoTo(limits.maxAttempts - 1) - 1))
  {
    var all := ops + [Turn(v)];
    ClockRan(all, |ops|);
    assert all[..|ops|] == ops && all[|ops|] == Turn(v);
    var before := Failures(limits, ops, v.wager);
    RecordsAreFailures(s, limits, ops, v.wager);
    VisitFollowsTimes(After(s, limits, ops), limits, v, before);
    if before != [] {
      FailuresAreSpaced(limits, ops, v.wager);
      OneMoreFailure(before, limits.baseDelayMs, v.endedAt);
      GapsAddUp(before + [v.endedAt], limits.baseDelayMs);
    }
  }
}
