/**
 * Guessing a served round: the row is read, the clock is read, the row is closed
 * by a conditional update, and only then is the answer looked at. Requests
 * interleave between those points in any way.
 */
module RoundGuess {
  import opened Prelude

  type UserId = string

  datatype Round = Round(userId: UserId, issuedAt: int, windowMs: int, expiresAt: int, closedAt: Option<int>)

  datatype Outcome = NotFound | Conflict | Gone | Scored

  /** What listeners and the player see. */
  datatype Event =
    | Ended(request: nat, timedOut: bool)  // the round-ended announcement
    | Revealed(request: nat)               // the reply with the correct answer

  datatype Request =
    | Arrived(userId: UserId)
    | Loaded                               // the row was read, and was open
    | Stamped(now: int)                    // the clock was read
    | Closed(now: int)                     // this request's update closed the row
    | Finished(outcome: Outcome, now: int)

  datatype State = State(round: Round, clock: int, requests: seq<Request>, log: seq<Event>)

  /** The conditional update: the closing time is written only where there is none yet. */
  function CloseIfOpen(round: Round, now: int): Round {
    if round.closedAt.None? then round.(closedAt := Some(now)) else round
  }

  predicate Late(round: Round, now: int) {
    now - round.issuedAt > round.windowMs
  }

  datatype Action = Tick(ms: nat) | Advance(request: nat)

  function Step(s: State, a: Action): State {
    match a
    case Tick(ms) => s.(clock := s.clock + ms)
    case Advance(p) => if p >= |s.requests| then s else StepRequest(s, p)
  }

  function StepRequest(s: State, p: nat): State
    requires p < |s.requests|
  {
    match s.requests[p]
    case Arrived(user) =>
      if user != s.round.userId then s.(requests := s.requests[p := Finished(NotFound, s.clock)])
      else if s.round.closedAt.Some? then s.(requests := s.requests[p := Finished(Conflict, s.clock)])
      else s.(requests := s.requests[p := Loaded])
    case Loaded => s.(requests := s.requests[p := Stamped(s.clock)])
    case Stamped(now) =>
      var round := CloseIfOpen(s.round, now);
      if s.round.expiresAt <= now then
        s.(round := round, requests := s.requests[p := Finished(Gone, now)], log := s.log + [Ended(p, true)])
      else if s.round.closedAt.None? then s.(round := round, requests := s.requests[p := Closed(now)])
      else s.(requests := s.requests[p := Finished(Conflict, now)])
    case Closed(now) =>
      s.(requests := s.requests[p := Finished(Scored, now)],
         log := s.log + [Ended(p, Late(s.round, now)), Revealed(p)])
    case Finished(_, _) => s
  }

  function After(s: State, actions: seq<Action>): State
    decreases |actions|
  {
    if actions == [] then s else Step(After(s, actions[..|actions| - 1]), actions[|actions| - 1])
  }

  // ----- One request with nobody else at work -----

  class RoundRow {
    var round: Round

    method UpdateIfOpen(now: int) returns (affected: nat)
      modifies this
      ensures round == CloseIfOpen(old(round), now)
      ensures affected == if old(round).closedAt.None? then 1 else 0
    {
      affected := 0;
      if round.closedAt.None? {
        round := round.(closedAt := Some(now));
        affected := 1;
      }
    }

    /** The whole request, with nobody else at work and the clock standing still: it ends as the protocol does. */
    method GuessRound(userId: UserId, now: int) returns (outcome: Outcome, events: seq<Event>)
      modifies this
      ensures var end := RunAlone(old(round), userId, now);
              && end.requests == [Finished(outcome, now)]
              && round == end.round && events == end.log
    {
      AloneTakesFourSteps(round, userId, now);
      if userId != round.userId {
        return NotFound, [];
      }
      if round.closedAt.Some? {
        return Conflict, [];
      }
      if round.expiresAt <= now {
        var _ := UpdateIfOpen(now);
        return Gone, [Ended(0, true)];
      }
      var affected := UpdateIfOpen(now);
      if affected == 0 {
        return Conflict, [];
      }
      return Scored, [Ended(0, now - round.issuedAt > round.windowMs), Revealed(0)];
    }
  }

  /** One request alone takes all its steps: arriving, reading the clock, closing, scoring. */
  ghost function RunAlone(round: Round, userId: UserId, now: int): State {
    After(State(round, now, [Arrived(userId)], []), [Advance(0), Advance(0), Advance(0), Advance(0)])
  }

  lemma OneMore(s: State, actions: seq<Action>, a: Action)
    ensures After(s, actions + [a]) == Step(After(s, actions), a)
  {
    assert (actions + [a])[..|actions|] == actions;
  }

  lemma AloneTakesFourSteps(round: Round, userId: UserId, now: int)
    ensures var s := State(round, now, [Arrived(userId)], []);
            var a := Advance(0);
            RunAlone(round, userId, now) == Step(Step(Step(Step(s, a), a), a), a)
  {
    FourMore(State(round, now, [Arrived(userId)], []), Advance(0));
  }

  lemma FourMore(s: State, a: Action)
    ensures After(s, [a, a, a, a]) == Step(Step(Step(Step(s, a), a), a), a)
  {
    TwoMore(s, [], a);
    assert [] + [a, a] == [a, a];
    TwoMore(s, [a, a], a);
    assert [a, a] + [a, a] == [a, a, a, a];
  }

  lemma TwoMore(s: State, actions: seq<Action>, a: Action)
    ensures After(s, actions + [a, a]) == Step(Step(After(s, actions), a), a)
  {
    OneMore(s, actions, a);
    OneMore(s, actions + [a], a);
    assert actions + [a] + [a] == actions + [a, a];
  }

  // ----- Every interleaving -----

  /** The request's own update closed the row. */
  predicate Won(r: Request) {
    r.Closed? || (r.Finished? && r.outcome == Scored)
  }

  predicate Expired(r: Request) {
    r.Finished? && r.outcome == Gone
  }

  ghost predicate Fresh(s: State) {
    s.log == [] && forall p :: 0 <= p < |s.requests| ==> s.requests[p].Arrived?
  }

  function EndedBy(log: seq<Event>, p: nat): nat {
    if log == [] then 0
    else EndedBy(log[..|log| - 1], p) + if log[|log| - 1].Ended? && log[|log| - 1].request == p then 1 else 0
  }

  ghost predicate Inv(start: Round, s: State) {
    && s.round == start.(closedAt := s.round.closedAt)
    && (start.closedAt.Some? ==> s.round == start)
    && (forall p :: 0 <= p < |s.requests| && Won(s.requests[p]) ==>
          start.closedAt.None? && s.round.closedAt == Some(s.requests[p].now) && s.requests[p].now < start.expiresAt)
    && (forall p :: 0 <= p < |s.requests| && Expired(s.requests[p]) ==>
          s.round.closedAt.Some? && start.expiresAt <= s.requests[p].now)
    && (forall p, q :: 0 <= p < q < |s.requests| && Won(s.requests[p]) ==> !Won(s.requests[q]))
    && (s.round.closedAt.Some? && start.closedAt.None? ==> exists p :: 0 <= p < |s.requests| && Closer(s, p))
    && (forall p: nat :: Revealed(p) in s.log <==>
          p < |s.requests| && s.requests[p].Finished? && s.requests[p].outcome == Scored)
    && (forall p: nat :: EndedBy(s.log, p) == if p < |s.requests| && Announces(s.requests[p]) then 1 else 0)
    && (forall p :: 0 <= p < |s.requests| && s.requests[p].Finished? && s.requests[p].outcome == Conflict ==>
          s.round.closedAt.Some?)
  }

  /** Request p closed the row. */
  predicate Closer(s: State, p: nat) {
    && p < |s.requests|
    && (Won(s.requests[p]) || Expired(s.requests[p]))
    && s.round.closedAt == Some(s.requests[p].now)
  }

  predicate Announces(r: Request) {
    r.Finished? && (r.outcome == Scored || r.outcome == Gone)
  }

  lemma {:induction false} EndedByAppend(log: seq<Event>, more: seq<Event>, p: nat)
    ensures EndedBy(log + more, p) == EndedBy(log, p) + EndedBy(more, p)
    decreases |more|
  {
    if more == [] {
      assert log + more == log;
    } else {
      var n := |more| - 1;
      EndedByAppend(log, more[..n], p);
      assert (log + more)[..|log + more| - 1] == log + more[..n];
    }
  }

  lemma LateKeepsInv(start: Round, s: State, p: nat)
    requires Inv(start, s) && p < |s.requests| && s.requests[p].Stamped? && s.round.expiresAt <= s.requests[p].now
    ensures Inv(start, StepRequest(s, p))
  {
    var s' := StepRequest(s, p);
    CloserStays(s, p);
    forall q: nat
      ensures EndedBy(s'.log, q) == EndedBy(s.log, q) + if q == p then 1 else 0
    {
      EndedByAppend(s.log, [Ended(p, true)], q);
    }
  }

  lemma InTimeKeepsInv(start: Round, s: State, p: nat)
    requires Inv(start, s) && p < |s.requests| && s.requests[p].Stamped? && s.requests[p].now < s.round.expiresAt
    ensures Inv(start, StepRequest(s, p))
  {
    CloserStays(s, p);
  }

  /** Whoever closed the row keeps that role, and an open row is closed by the request now at it. */
  lemma CloserStays(s: State, p: nat)
    requires p < |s.requests| && s.requests[p].Stamped?
    ensures forall q :: Closer(s, q) ==> Closer(StepRequest(s, p), q)
    ensures s.round.closedAt.None? ==> Closer(StepRequest(s, p), p)
  {
  }

  lemma ScoringKeepsInv(start: Round, s: State, p: nat)
    requires Inv(start, s) && p < |s.requests| && s.requests[p].Closed?
    ensures Inv(start, StepRequest(s, p))
  {
    var s' := StepRequest(s, p);
    var more := [Ended(p, Late(s.round, s.requests[p].now)), Revealed(p)];
    assert Closer(s', p);
    forall q: nat
      ensures EndedBy(s'.log, q) == EndedBy(s.log, q) + if q == p then 1 else 0
    {
      EndedByAppend(s.log, more, q);
      var first := [more[0]];
      assert more[..|more| - 1] == first;
      assert first[..|first| - 1] == [];
      assert EndedBy(first, q) == if q == p then 1 else 0;
    }
  }

  /** Reading the row or the clock, or having finished, changes nothing that matters. */
  lemma QuietChangesLittle(s: State, p: nat)
    requires p < |s.requests| && !s.requests[p].Stamped? && !s.requests[p].Closed?
    ensures var s' := StepRequest(s, p);
            && s'.round == s.round && s'.log == s.log && |s'.requests| == |s.requests|
            && forall q :: 0 <= q < |s.requests| ==>
                 && (Won(s'.requests[q]) || Expired(s'.requests[q]) || Won(s.requests[q]) || Expired(s.requests[q]) ==>
                       s'.requests[q] == s.requests[q])
                 && (s'.requests[q].Finished? && s'.requests[q].outcome == Conflict ==>
                       s'.requests[q] == s.requests[q] || s.round.closedAt.Some?)
  {
  }

  lemma QuietKeepsInv(start: Round, s: State, p: nat)
    requires Inv(start, s) && p < |s.requests|
    requires !s.requests[p].Stamped? && !s.requests[p].Closed?
    ensures Inv(start, StepRequest(s, p))
  {
    var s' := StepRequest(s, p);
    QuietChangesLittle(s, p);
    if s.round.closedAt.Some? && start.closedAt.None? {
      var q :| 0 <= q < |s.requests| && Closer(s, q);
      assert Closer(s', q);
    }
  }

  lemma TickKeepsInv(start: Round, s: State, ms: nat)
    requires Inv(start, s)
    ensures Inv(start, s.(clock := s.clock + ms))
  {
    var s' := s.(clock := s.clock + ms);
    forall q | Closer(s, q) ensures Closer(s', q) {}
  }

  lemma StepKeepsInv(start: Round, s: State, a: Action)
    requires Inv(start, s)
    ensures Inv(start, Step(s, a))
  {
    match a {
      case Tick(ms) => TickKeepsInv(start, s, ms);
      case Advance(p) =>
        if p < |s.requests| {
          if s.requests[p].Stamped? {
            if s.round.expiresAt <= s.requests[p].now {
              LateKeepsInv(start, s, p);
            } else {
              InTimeKeepsInv(start, s, p);
            }
          } else if s.requests[p].Closed? {
            ScoringKeepsInv(start, s, p);
          } else {
            QuietKeepsInv(start, s, p);
          }
        }
    }
  }

  lemma ClosedRowsStay(s: State, a: Action)
    ensures s.round.closedAt.Some? ==> Step(s, a).round == s.round
    ensures |Step(s, a).requests| == |s.requests|
  {
  }

  lemma {:induction false} RunKeepsInv(s: State, actions: seq<Action>)
    requires Fresh(s)
    ensures Inv(s.round, After(s, actions)) && |After(s, actions).requests| == |s.requests|
    decreases |actions|
  {
    if actions != [] {
      var mid, a := After(s, actions[..|actions| - 1]), actions[|actions| - 1];
      RunKeepsInv(s, actions[..|actions| - 1]);
      StepKeepsInv(s.round, mid, a);
      ClosedRowsStay(mid, a);
    }
  }

  /** At most one of any number of concurrent guesses is scored, and it closed the row in time. */
  lemma AtMostOneGuessIsScored(s: State, actions: seq<Action>, p: nat, q: nat)
    requires Fresh(s) && p < q < |s.requests|
    ensures var end := After(s, actions);
            && |end.requests| == |s.requests|
            && !(Won(end.requests[p]) && Won(end.requests[q]))
            && (Won(end.requests[p]) ==>
                  end.round.closedAt == Some(end.requests[p].now) && end.requests[p].now < s.round.expiresAt)
  {
    RunKeepsInv(s, actions);
  }

  /** The closing time is written once; every state with a revealed answer has a closed row. */
  lemma {:induction false} ClosedForGood(s: State, actions: seq<Action>, k: nat, p: nat)
    requires Fresh(s) && k <= |actions|
    ensures After(s, actions[..k]).round.closedAt.Some? ==> After(s, actions).round == After(s, actions[..k]).round
    ensures Revealed(p) in After(s, actions[..k]).log ==> After(s, actions[..k]).round.closedAt.Some?
    decreases |actions|
  {
    RunKeepsInv(s, actions[..k]);
    if k < |actions| {
      var n := |actions| - 1;
      ClosedForGood(s, actions[..n], k, p);
      assert actions[..n][..k] == actions[..k];
      ClosedRowsStay(After(s, actions[..n]), actions[n]);
    } else {
      assert actions[..k] == actions;
    }
  }

  /**
   * When every request has finished: the round is closed as soon as one of them
   * was the owner's, and if none of them came too late, one of those was scored.
   */
  lemma OneOwnerGuessGetsThrough(s: State, actions: seq<Action>, owner: nat)
    requires Fresh(s) && s.round.closedAt.None? && owner < |s.requests|
    requires s.requests[owner] == Arrived(s.round.userId)
    requires forall p :: 0 <= p < |After(s, actions).requests| ==> After(s, actions).requests[p].Finished?
    ensures var end := After(s, actions);
            && end.round.closedAt.Some?
            && exists p :: 0 <= p < |end.requests| && Closer(end, p)
                 && (end.requests[p].outcome == Scored || end.requests[p].outcome == Gone)
  {
    RunKeepsInv(s, actions);
    OwnersAreNeverNotFound(s, actions, owner);
    var end := After(s, actions);
    assert end.requests[owner].Finished?;
  }

  /** The owner's own request never ends as a missing round, and nobody else's ends as anything else. */
  lemma {:induction false} OwnersAreNeverNotFound(s: State, actions: seq<Action>, p: nat)
    requires Fresh(s) && p < |s.requests|
    ensures |After(s, actions).requests| == |s.requests|
    ensures var r := After(s, actions).requests[p];
            if s.requests[p].userId == s.round.userId
            then !(r.Finished? && r.outcome == NotFound) && (r.Arrived? ==> r == s.requests[p])
            else r == s.requests[p] || (r.Finished? && r.outcome == NotFound)
    decreases |actions|
  {
    if actions != [] {
      var n := |actions| - 1;
      OwnersAreNeverNotFound(s, actions[..n], p);
      RunKeepsInv(s, actions[..n]);
    }
  }

  // ----- The announcement -----

  /** Each scored guess and each late one announces the end of the round exactly once. */
  lemma OneAnnouncementPerEnding(s: State, actions: seq<Action>, p: nat)
    requires Fresh(s) && p < |s.requests|
    ensures |After(s, actions).requests| == |s.requests|
    ensures EndedBy(After(s, actions).log, p) == if Announces(After(s, actions).requests[p]) then 1 else 0
  {
    RunKeepsInv(s, actions);
  }

  /** Two different requests announced the end of the round. */
  ghost predicate AnnouncedTwice(s: State) {
    exists p: nat, q: nat :: p < q && EndedBy(s.log, p) > 0 && EndedBy(s.log, q) > 0
  }

  /** The late branch runs on a row that is already closed. */
  predicate LateOnClosed(s: State, a: Action) {
    && a.Advance? && a.request < |s.requests| && s.requests[a.request].Stamped?
    && s.round.expiresAt <= s.requests[a.request].now
    && s.round.closedAt.Some?
  }

  /** Some step of the run takes the late branch on a row already closed. */
  ghost predicate SomeLateOnClosed(s: State, actions: seq<Action>) {
    exists k :: 0 <= k < |actions| && LateOnClosed(After(s, actions[..k]), actions[k])
  }

  /** The request closed the row or took the late branch, so it announces the end now or later. */
  predicate Ends(r: Request) {
    Won(r) || Expired(r)
  }

  ghost predicate TwoEnd(s: State) {
    exists p, q :: 0 <= p < q < |s.requests| && Ends(s.requests[p]) && Ends(s.requests[q])
  }

  /** A request that ends the round keeps doing so, and a step adds at most the request it is about. */
  lemma EndsOnlyGrow(s: State, a: Action)
    ensures |Step(s, a).requests| == |s.requests|
    ensures forall q :: 0 <= q < |s.requests| && Ends(s.requests[q]) ==> Ends(Step(s, a).requests[q])
    ensures forall q :: 0 <= q < |s.requests| && Ends(Step(s, a).requests[q]) && !Ends(s.requests[q]) ==>
              a == Advance(q) && s.requests[q].Stamped? && (s.round.closedAt.None? || LateOnClosed(s, a))
    ensures LateOnClosed(s, a) ==> !Ends(s.requests[a.request]) && Ends(Step(s, a).requests[a.request])
  {
  }

  /** In a round that was open at first, the row is closed exactly when some request ends it. */
  lemma ClosedByWhoever(start: Round, s: State)
    requires Inv(start, s) && start.closedAt.None?
    ensures s.round.closedAt.Some? <==> exists p :: 0 <= p < |s.requests| && Ends(s.requests[p])
  {
    if s.round.closedAt.Some? {
      var p :| 0 <= p < |s.requests| && Closer(s, p);
      assert Ends(s.requests[p]);
    }
  }

  /** Two requests end the round after a step exactly when two did before, or the step is late on a closed row. */
  lemma StepTwoEnd(start: Round, s: State, a: Action)
    requires Inv(start, s) && start.closedAt.None?
    ensures TwoEnd(Step(s, a)) <==> TwoEnd(s) || LateOnClosed(s, a)
  {
    var s' := Step(s, a);
    EndsOnlyGrow(s, a);
    ClosedByWhoever(start, s);
    if LateOnClosed(s, a) {
      var p :| 0 <= p < |s.requests| && Ends(s.requests[p]);
      var lo, hi := Min(p, a.request), Max(p, a.request);
      assert Ends(s'.requests[lo]) && Ends(s'.requests[hi]);
    }
  }

  /** In a round that was closed at first nobody gets past the first check. */
  lemma {:induction false} ClosedRoundsEndNothing(s: State, actions: seq<Action>)
    requires Fresh(s) && s.round.closedAt.Some?
    ensures !SomeLateOnClosed(s, actions)
    ensures After(s, actions).round == s.round
    ensures forall p :: 0 <= p < |After(s, actions).requests| ==>
              After(s, actions).requests[p].Arrived?
              || (After(s, actions).requests[p].Finished? && !Announces(After(s, actions).requests[p]))
    decreases |actions|
  {
    if actions != [] {
      var n := |actions| - 1;
      ClosedRoundsEndNothing(s, actions[..n]);
      LastLateOnClosed(s, actions);
    }
  }

  lemma LastLateOnClosed(s: State, actions: seq<Action>)
    requires actions != []
    ensures SomeLateOnClosed(s, actions)
       <==> SomeLateOnClosed(s, actions[..|actions| - 1])
            || LateOnClosed(After(s, actions[..|actions| - 1]), actions[|actions| - 1])
  {
    var n := |actions| - 1;
    forall k | 0 <= k < n ensures actions[..n][..k] == actions[..k] && actions[..n][k] == actions[k] {}
    if SomeLateOnClosed(s, actions[..n]) {
      var k :| 0 <= k < n && LateOnClosed(After(s, actions[..n][..k]), actions[..n][k]);
      assert LateOnClosed(After(s, actions[..k]), actions[k]);
    }
  }

  lemma {:induction false} RunTwoEnd(s: State, actions: seq<Action>)
    requires Fresh(s) && s.round.closedAt.None?
    ensures TwoEnd(After(s, actions)) <==> SomeLateOnClosed(s, actions)
    decreases |actions|
  {
    if actions != [] {
      var n := |actions| - 1;
      RunTwoEnd(s, actions[..n]);
      RunKeepsInv(s, actions[..n]);
      StepTwoEnd(s.round, After(s, actions[..n]), actions[n]);
      LastLateOnClosed(s, actions);
    }
  }

  /** Whoever has announced the end, ends the round; and at the end of a run the other way round too. */
  lemma AnnouncingIsEnding(start: Round, s: State)
    requires Inv(start, s)
    ensures AnnouncedTwice(s) ==> TwoEnd(s)
    ensures (forall p :: 0 <= p < |s.requests| ==> s.requests[p].Finished?) && TwoEnd(s) ==> AnnouncedTwice(s)
  {
    if AnnouncedTwice(s) {
      var p: nat, q: nat :| p < q && EndedBy(s.log, p) > 0 && EndedBy(s.log, q) > 0;
      assert Announces(s.requests[p]) && Announces(s.requests[q]);
      assert Ends(s.requests[p]) && Ends(s.requests[q]);
    }
    if (forall p :: 0 <= p < |s.requests| ==> s.requests[p].Finished?) && TwoEnd(s) {
      var p, q :| 0 <= p < q < |s.requests| && Ends(s.requests[p]) && Ends(s.requests[q]);
      assert EndedBy(s.log, p) == 1 && EndedBy(s.log, q) == 1;
    }
  }

  /**
   * Once every request has finished, the end was announced twice exactly when
   * some request reached the late branch while the row was already closed;
   * before that, only if.
   */
  lemma {:induction false} AnnouncedTwiceExactlyWhen(s: State, actions: seq<Action>)
    requires Fresh(s)
    ensures AnnouncedTwice(After(s, actions)) ==> SomeLateOnClosed(s, actions)
    ensures (forall p :: 0 <= p < |After(s, actions).requests| ==> After(s, actions).requests[p].Finished?) ==>
              (AnnouncedTwice(After(s, actions)) <==> SomeLateOnClosed(s, actions))
  {
    RunKeepsInv(s, actions);
    AnnouncingIsEnding(s.round, After(s, actions));
    if s.round.closedAt.None? {
      RunTwoEnd(s, actions);
    } else {
      ClosedRoundsEndNothing(s, actions);
    }
  }

  /** The request reads the clock when the round has expired. */
  predicate ReadsTooLate(s: State, a: Action) {
    a.Advance? && a.request < |s.requests| && s.requests[a.request].Loaded? && s.round.expiresAt <= s.clock
  }

  ghost predicate NobodyReadsTooLate(s: State, actions: seq<Action>) {
    forall k :: 0 <= k < |actions| ==> !ReadsTooLate(After(s, actions[..k]), actions[k])
  }

  ghost predicate NoneStampedLate(s: State) {
    forall p :: 0 <= p < |s.requests| && s.requests[p].Stamped? ==> s.requests[p].now < s.round.expiresAt
  }

  lemma StepStampsInTime(s: State, a: Action)
    requires NoneStampedLate(s) && !ReadsTooLate(s, a)
    ensures NoneStampedLate(Step(s, a)) && Step(s, a).round.expiresAt == s.round.expiresAt
  {
  }

  lemma FewerReadInTime(s: State, actions: seq<Action>, n: nat)
    requires NobodyReadsTooLate(s, actions) && n <= |actions|
    ensures NobodyReadsTooLate(s, actions[..n])
  {
    forall k | 0 <= k < n ensures !ReadsTooLate(After(s, actions[..n][..k]), actions[..n][k]) {
      assert actions[..n][..k] == actions[..k] && actions[..n][k] == actions[k];
    }
  }

  lemma {:induction false} NobodyIsLate(s: State, actions: seq<Action>)
    requires Fresh(s) && NobodyReadsTooLate(s, actions)
    ensures NoneStampedLate(After(s, actions))
    decreases |actions|
  {
    if actions != [] {
      var n := |actions| - 1;
      FewerReadInTime(s, actions, n);
      NobodyIsLate(s, actions[..n]);
      StepStampsInTime(After(s, actions[..n]), actions[n]);
    }
  }

  /** If every request reads the clock before the round expires, the end is never announced twice. */
  lemma {:induction false} InTimeAnnouncedOnce(s: State, actions: seq<Action>)
    requires Fresh(s) && NobodyReadsTooLate(s, actions)
    ensures !AnnouncedTwice(After(s, actions))
  {
    AnnouncedTwiceExactlyWhen(s, actions);
    if SomeLateOnClosed(s, actions) {
      var k :| 0 <= k < |actions| && LateOnClosed(After(s, actions[..k]), actions[k]);
      FewerReadInTime(s, actions, k);
      NobodyIsLate(s, actions[..k]);
    }
  }

  // ----- What an announcement says -----

  /** The flag of every announcement so far: the request was refused as too late, or took longer than the window. */
  ghost predicate FlagsAreTrue(start: Round, s: State) {
    forall p: nat, t: bool :: Ended(p, t) in s.log ==>
      && p < |s.requests| && s.requests[p].Finished?
      && s.requests[p].outcome in {Gone, Scored}
      && (t <==> s.requests[p].outcome == Gone || s.requests[p].now - start.issuedAt > start.windowMs)
  }

  lemma StepKeepsFlags(start: Round, s: State, a: Action)
    requires FlagsAreTrue(start, s) && s.round == start.(closedAt := s.round.closedAt)
    ensures FlagsAreTrue(start, Step(s, a))
  {
    var s' := Step(s, a);
    forall p: nat, t: bool | Ended(p, t) in s'.log
      ensures p < |s'.requests| && s'.requests[p].Finished? && s'.requests[p].outcome in {Gone, Scored}
      ensures t <==> s'.requests[p].outcome == Gone || s'.requests[p].now - start.issuedAt > start.windowMs
    {
      if Ended(p, t) in s.log {
        assert s'.requests[p] == s.requests[p];
      }
    }
  }

  /**
   * In every run an announcement says "timed out" exactly when its request was
   * refused as too late, or was scored on an answer slower than the window.
   */
  lemma {:induction false} TimedOutExactlyWhen(s: State, actions: seq<Action>)
    requires Fresh(s)
    ensures FlagsAreTrue(s.round, After(s, actions))
    decreases |actions|
  {
    if actions != [] {
      var n := |actions| - 1;
      TimedOutExactlyWhen(s, actions[..n]);
      RunKeepsInv(s, actions[..n]);
      StepKeepsFlags(s.round, After(s, actions[..n]), actions[n]);
    }
  }

  /**
   * So one round can be announced as ended twice, and with opposite results: the
   * late branch announces without asking whether its update closed the row.
   */
  lemma RoundAnnouncedTwice()
    ensures var s := State(Round("u", 0, 20, 10, None), 9, [Arrived("u"), Arrived("u")], []);
            var run := [Advance(0), Advance(1), Advance(0), Tick(1), Advance(1), Advance(0), Advance(0), Advance(1)];
            Fresh(s) && After(s, run).log == [Ended(0, false), Revealed(0), Ended(1, true)]
  {
    var s := State(Round("u", 0, 20, 10, None), 9, [Arrived("u"), Arrived("u")], []);
    var open := s.round;
    var closed := open.(closedAt := Some(9));
    var r1 := [] + [Advance(0)];
    var r2 := r1 + [Advance(1)];
    var r3 := r2 + [Advance(0)];
    var r4 := r3 + [Tick(1)];
    var r5 := r4 + [Advance(1)];
    var r6 := r5 + [Advance(0)];
    var r7 := r6 + [Advance(0)];
    var r8 := r7 + [Advance(1)];
    OneMore(s, [], Advance(0));
    OneMore(s, r1, Advance(1));
    OneMore(s, r2, Advance(0));
    assert After(s, r3) == State(open, 9, [Stamped(9), Loaded], []);
    OneMore(s, r3, Tick(1));
    OneMore(s, r4, Advance(1));
    OneMore(s, r5, Advance(0));
    assert After(s, r6) == State(closed, 10, [Closed(9), Stamped(10)], []);
    OneMore(s, r6, Advance(0));
    OneMore(s, r7, Advance(1));
    assert r8 == [Advance(0), Advance(1), Advance(0), Tick(1), Advance(1), Advance(0), Advance(0), Advance(1)];
  }
}
