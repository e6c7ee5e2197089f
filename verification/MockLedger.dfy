/** What any sequence of calls to the in-database backend keeps true of the money. */
module MockLedger {
  import opened Prelude
  import opened MapSum
  import opened EscrowTypes
  import opened MockEscrow

  // ----- Money in the system -----

  /** The stakes a wager row still holds. */
  function Held(w: Wager): int {
    if w.status == SETTLED then 0
    else (if w.stakeHashA.Some? then w.stake else 0) + (if w.stakeHashB.Some? then w.stake else 0)
  }

  function HeldBySession(wagers: map<SessionId, Wager>): map<SessionId, int> {
    map sid | sid in wagers :: Held(wagers[sid])
  }

  ghost function Total(s: Store): int {
    Sum(s.balances) + Sum(HeldBySession(s.wagers))
  }

  lemma HeldUpdate(wagers: map<SessionId, Wager>, sid: SessionId, w: Wager)
    ensures Sum(HeldBySession(wagers[sid := w]))
         == Sum(HeldBySession(wagers)) - (if sid in wagers then Held(wagers[sid]) else 0) + Held(w)
  {
    assert HeldBySession(wagers[sid := w]) == HeldBySession(wagers)[sid := Held(w)];
    SumUpdate(HeldBySession(wagers), sid, Held(w));
  }

  lemma {:induction false} CreditAllSum(balances: map<UserId, int>, users: seq<UserId>, amount: int)
    requires CreditAll(balances, users, amount).Ok?
    ensures Sum(CreditAll(balances, users, amount).value) == Sum(balances) + |users| * amount
  {
    if users != [] {
      SumUpdate(balances, users[0], balances[users[0]] + amount);
      CreditAllSum(Credit(balances, users[0], amount).value, users[1..], amount);
    }
  }

  /** The user's row can take this amount more. */
  predicate CanTake(s: Store, u: UserId, amount: int) {
    u in s.balances && InI128(s.balances[u]) && InI128(amount) && Storable(s.balances[u] + amount)
  }

  predicate CanTakeTwice(s: Store, u: UserId, amount: int) {
    CanTake(s, u, amount) && Storable(s.balances[u] + 2 * amount)
  }

  /** The guards of a call that moves some stake, on the state it finds. */
  predicate MovesStake(s: Store, c: Call) {
    var ctx := c.ctx;
    && !c.Open?
    && ctx.sessionId in s.wagers
    && var w := s.wagers[ctx.sessionId];
    && w.status == OPEN
    && match c
       case Stake(u, _, _) =>
         && IsPlayer(u, ctx)
         && (u == ctx.playerAId ==> w.stakeHashA.None?) && (u == ctx.playerBId ==> w.stakeHashB.None?)
         && u in s.balances && InI128(s.balances[u]) && InI128(ctx.stake)
         && ctx.stake <= s.balances[u] && Storable(s.balances[u] - ctx.stake)
       case Release(winner, _) =>
         && IsPlayer(winner, ctx) && w.stakeHashA.Some? && w.stakeHashB.Some?
         && InI128(ctx.stake) && CanTake(s, winner, 2 * ctx.stake)
       case _ =>
         && (w.stakeHashA.Some? || w.stakeHashB.Some?)
         && (w.stakeHashA.Some? ==> CanTake(s, ctx.playerAId, ctx.stake))
         && (w.stakeHashB.Some? ==> CanTake(s, ctx.playerBId, ctx.stake))
         && (w.stakeHashA.Some? && w.stakeHashB.Some? && ctx.playerAId == ctx.playerBId ==>
               CanTakeTwice(s, ctx.playerAId, ctx.stake))
  }

  lemma CreditOne(balances: map<UserId, int>, u: UserId, amount: int)
    ensures CreditAll(balances, [u], amount) == Credit(balances, u, amount)
  {
    assert [u][1..] == [];
  }

  lemma CreditTwo(balances: map<UserId, int>, u: UserId, v: UserId, amount: int)
    requires Credit(balances, u, amount).Ok?
    ensures CreditAll(balances, [u, v], amount) == Credit(Credit(balances, u, amount).value, v, amount)
  {
    assert [u, v][1..] == [v];
    CreditOne(Credit(balances, u, amount).value, v, amount);
  }

  lemma RefundPassesExactlyWhen(s: Store, ctx: EscrowContext)
    requires ctx.sessionId in s.wagers && Stakers(s.wagers[ctx.sessionId], ctx) != []
    ensures RefundStep(s, ctx).Ok? <==> MovesStake(s, Refund(ctx))
  {
    var w := s.wagers[ctx.sessionId];
    var users := Stakers(w, ctx);
    if w.stakeHashB.None? {
      assert users == [ctx.playerAId];
      CreditOne(s.balances, ctx.playerAId, ctx.stake);
    } else if w.stakeHashA.None? {
      assert users == [ctx.playerBId];
      CreditOne(s.balances, ctx.playerBId, ctx.stake);
    } else if CanTake(s, ctx.playerAId, ctx.stake) {
      assert users == [ctx.playerAId, ctx.playerBId];
      CreditTwo(s.balances, ctx.playerAId, ctx.playerBId, ctx.stake);
    } else {
      assert users[0] == ctx.playerAId;
    }
  }

  lemma StakeDrift(s: Store, u: UserId, ctx: EscrowContext, hash: TxHash)
    requires StakeStep(s, u, ctx, hash).Ok?
    ensures Total(StakeStep(s, u, ctx, hash).value) == Total(s) + s.wagers[ctx.sessionId].stake - ctx.stake
  {
    var s' := StakeStep(s, u, ctx, hash).value;
    HeldUpdate(s.wagers, ctx.sessionId, s'.wagers[ctx.sessionId]);
    SumUpdate(s.balances, u, s.balances[u] - ctx.stake);
  }

  lemma ReleaseDrift(s: Store, winner: UserId, ctx: EscrowContext)
    requires ReleaseStep(s, winner, ctx).Ok?
    ensures Total(ReleaseStep(s, winner, ctx).value)
         == Total(s) + 2 * (ctx.stake - s.wagers[ctx.sessionId].stake)
  {
    var s' := ReleaseStep(s, winner, ctx).value;
    HeldUpdate(s.wagers, ctx.sessionId, s'.wagers[ctx.sessionId]);
    SumUpdate(s.balances, winner, s.balances[winner] + 2 * ctx.stake);
  }

  lemma RefundDrift(s: Store, ctx: EscrowContext)
    requires RefundStep(s, ctx).Ok?
    ensures var w := s.wagers[ctx.sessionId];
            Total(RefundStep(s, ctx).value) == Total(s) + |Stakers(w, ctx)| * (ctx.stake - w.stake)
  {
    var w := s.wagers[ctx.sessionId];
    var s' := RefundStep(s, ctx).value;
    HeldUpdate(s.wagers, ctx.sessionId, s'.wagers[ctx.sessionId]);
    CreditAllSum(s.balances, Stakers(w, ctx), ctx.stake);
    assert Held(w) == |Stakers(w, ctx)| * w.stake;
  }

  lemma StakeConserves(s: Store, c: Call)
    requires c.Stake?
    ensures Total(Step(s, c).0) == Total(s)
       <==> (MovesStake(s, c) ==> c.ctx.stake == s.wagers[c.ctx.sessionId].stake)
  {
    if MovesStake(s, c) { StakeDrift(s, c.userId, c.ctx, c.hash); }
  }

  lemma ReleaseConserves(s: Store, c: Call)
    requires c.Release?
    ensures Total(Step(s, c).0) == Total(s)
       <==> (MovesStake(s, c) ==> c.ctx.stake == s.wagers[c.ctx.sessionId].stake)
  {
    if MovesStake(s, c) { ReleaseDrift(s, c.winnerId, c.ctx); }
  }

  lemma RefundConserves(s: Store, c: Call)
    requires c.Refund?
    ensures Total(Step(s, c).0) == Total(s)
       <==> (MovesStake(s, c) ==> c.ctx.stake == s.wagers[c.ctx.sessionId].stake)
  {
    var ctx := c.ctx;
    if RefundStep(s, ctx).Ok? { RefundDrift(s, ctx); }
    if ctx.sessionId in s.wagers && Stakers(s.wagers[ctx.sessionId], ctx) != [] {
      RefundPassesExactlyWhen(s, ctx);
    }
  }

  /**
   * The amount moved is the caller's, not the row's, so a call keeps the total
   * exactly when the caller names the stake the pot was opened with.
   */
  lemma ConservesExactlyWhenStakeMatches(s: Store, c: Call)
    ensures Total(Step(s, c).0) == Total(s)
       <==> (MovesStake(s, c) ==> c.ctx.stake == s.wagers[c.ctx.sessionId].stake)
  {
    match c {
      case Open(ctx) =>
        if Step(s, c).1.None? {
          HeldUpdate(s.wagers, ctx.sessionId, Step(s, c).0.wagers[ctx.sessionId]);
        }
      case Stake(_, _, _) => StakeConserves(s, c);
      case Release(_, _) => ReleaseConserves(s, c);
      case Refund(_) => RefundConserves(s, c);
    }
  }

  /** A concrete failure: two stakes of 1 released by a caller that says 5 creates 8. */
  lemma MismatchedStakeMintsMoney()
    ensures var row := Wager("a", "b", 1, OPEN, Some("h1"), Some("h2"));
            var s := Store(map["a" := 0, "b" := 0], map["s" := row]);
            var c := Release("a", EscrowContext("s", "a", "b", 5));
            Step(s, c).1.None? && Total(Step(s, c).0) == Total(s) + 8
  {
    var row := Wager("a", "b", 1, OPEN, Some("h1"), Some("h2"));
    var s := Store(map["a" := 0, "b" := 0], map["s" := row]);
    var s' := Step(s, Release("a", EscrowContext("s", "a", "b", 5))).0;
    SumUpdate(s.balances, "a", 10);
    HeldUpdate(s.wagers, "s", s'.wagers["s"]);
  }

  // ----- Failures -----

  /** Every stored stake fits its column. */
  ghost predicate StakesStored(s: Store) {
    forall sid :: sid in s.wagers ==> Storable(s.wagers[sid].stake)
  }

  /** The call opens a pot, or names the stake of the row it is about. */
  predicate NamesTheStake(s: Store, c: Call) {
    c.Open? || (c.ctx.sessionId in s.wagers ==> c.ctx.stake == s.wagers[c.ctx.sessionId].stake)
  }

  /** A refund of a pot nobody staked in, with a stake the reply cannot name. */
  predicate UnprintableRefund(s: Store, c: Call) {
    var sid := c.ctx.sessionId;
    && c.Refund? && !InI128(c.ctx.stake)
    && sid in s.wagers && s.wagers[sid].status == OPEN && Stakers(s.wagers[sid], c.ctx) == []
  }

  /**
   * A call that fails leaves every row as it was, with one exception that no
   * call naming a stored stake can be; and stored stakes keep fitting.
   */
  lemma FailedCallsChangeNothing(s: Store, c: Call)
    requires StakesStored(s)
    ensures StakesStored(Step(s, c).0)
    ensures Step(s, c).1.Some? ==> (Step(s, c).0 == s <==> !UnprintableRefund(s, c))
    ensures NamesTheStake(s, c) ==> !UnprintableRefund(s, c)
  {
    if UnprintableRefund(s, c) {
      assert Step(s, c).0.wagers[c.ctx.sessionId].status == SETTLED;
    }
  }

  // ----- Runs in which each session keeps one context -----

  /** One context per session, with distinct players and a positive stake. */
  ghost predicate ValidBook(book: map<SessionId, EscrowContext>) {
    forall sid :: sid in book ==>
      && book[sid].sessionId == sid
      && book[sid].playerAId != book[sid].playerBId
      && 0 < book[sid].stake <= I128_MAX
  }

  predicate Follows(book: map<SessionId, EscrowContext>, c: Call) {
    c.ctx.sessionId in book && book[c.ctx.sessionId] == c.ctx
  }

  ghost predicate AllFollow(book: map<SessionId, EscrowContext>, calls: seq<Call>) {
    forall i :: 0 <= i < |calls| ==> Follows(book, calls[i])
  }

  predicate RowOk(w: Wager, ctx: EscrowContext, users: set<UserId>) {
    && w.playerAId == ctx.playerAId && w.playerBId == ctx.playerBId && w.stake == ctx.stake && Storable(w.stake)
    && (w.stakeHashA.Some? ==> ctx.playerAId in users)
    && (w.stakeHashB.Some? ==> ctx.playerBId in users)
    && (w.status == SETTLED ==> w.stakeHashA.Some? == w.stakeHashB.Some?)
  }

  ghost predicate Inv(s: Store, book: map<SessionId, EscrowContext>) {
    && ValidBook(book)
    && (forall u :: u in s.balances ==> 0 <= s.balances[u])
    && (forall sid :: sid in s.wagers ==> sid in book && RowOk(s.wagers[sid], book[sid], s.balances.Keys))
  }

  /** Every balance fits its column. */
  ghost predicate BalancesFit(s: Store) {
    forall u :: u in s.balances ==> Storable(s.balances[u])
  }

  function Bal(s: Store, u: UserId): int {
    if u in s.balances then s.balances[u] else 0
  }

  /** What the documented rules ask before each call may go through. */
  predicate Allowed(s: Store, c: Call) {
    var ctx := c.ctx;
    if c.Open? then ctx.sessionId !in s.wagers && Storable(ctx.stake)
    else
      && ctx.sessionId in s.wagers
      && var w := s.wagers[ctx.sessionId];
      && w.status == OPEN
      && match c
         case Stake(u, _, _) =>
           && ((u == ctx.playerAId && w.stakeHashA.None?) || (u == ctx.playerBId && w.stakeHashB.None?))
           && u in s.balances && ctx.stake <= s.balances[u]
         case Release(winner, _) => IsPlayer(winner, ctx) && w.stakeHashA.Some? && w.stakeHashB.Some?
         case _ => true
  }

  /** What an allowed call adds to user u's balance. */
  function Gain(s: Store, c: Call, u: UserId): int
    requires Allowed(s, c)
  {
    var ctx := c.ctx;
    match c
    case Open(_) => 0
    case Stake(payer, _, _) => if u == payer then -ctx.stake else 0
    case Release(winner, _) => if u == winner then 2 * ctx.stake else 0
    case Refund(_) =>
      var w := s.wagers[ctx.sessionId];
      if (u == ctx.playerAId && w.stakeHashA.Some?) || (u == ctx.playerBId && w.stakeHashB.Some?) then ctx.stake
      else 0
  }

  /** The guard of the one money check the rules do not know: a credit past the balance column. */
  predicate CreditTooLarge(s: Store, c: Call) {
    var ctx := c.ctx;
    && Allowed(s, c)
    && match c
       case Release(winner, _) => !Storable(Bal(s, winner) + 2 * ctx.stake)
       case Refund(_) =>
         || (s.wagers[ctx.sessionId].stakeHashA.Some? && !Storable(Bal(s, ctx.playerAId) + ctx.stake))
         || (s.wagers[ctx.sessionId].stakeHashB.Some? && !Storable(Bal(s, ctx.playerBId) + ctx.stake))
       case _ => false
  }

  /**
   * What a call does: it succeeds only if the rules allow it, a failure changes
   * nothing, a success moves exactly the gains, and no other session is touched.
   */
  ghost predicate HasEffect(s: Store, c: Call) {
    var (s', failure) := Step(s, c);
    && (failure.Some? ==> s' == s)
    && (failure.None? ==> Allowed(s, c) && forall u :: Bal(s', u) == Bal(s, u) + Gain(s, c, u))
    && s'.balances.Keys == s.balances.Keys
    && (forall sid :: sid != c.ctx.sessionId ==>
          (sid in s'.wagers <==> sid in s.wagers)
          && (sid in s.wagers ==> s'.wagers[sid] == s.wagers[sid]))
  }

  lemma RefundCredits(s: Store, ctx: EscrowContext, book: map<SessionId, EscrowContext>)
    requires Inv(s, book) && Follows(book, Refund(ctx)) && Allowed(s, Refund(ctx))
    ensures var r := CreditAll(s.balances, Stakers(s.wagers[ctx.sessionId], ctx), ctx.stake);
            && (r.Ok? ==> r.value.Keys == s.balances.Keys
                          && forall u :: u in s.balances ==> r.value[u] == s.balances[u] + Gain(s, Refund(ctx), u))
            && (BalancesFit(s) ==> (r.Ok? <==> !CreditTooLarge(s, Refund(ctx))))
  {
    var w, a, b := s.wagers[ctx.sessionId], ctx.playerAId, ctx.playerBId;
    assert RowOk(w, ctx, s.balances.Keys);
    if w.stakeHashA.Some? && w.stakeHashB.Some? {
      assert Stakers(w, ctx) == [a, b];
      if Credit(s.balances, a, ctx.stake).Ok? {
        CreditTwo(s.balances, a, b, ctx.stake);
      }
    } else if w.stakeHashA.Some? {
      assert Stakers(w, ctx) == [a];
      CreditOne(s.balances, a, ctx.stake);
    } else if w.stakeHashB.Some? {
      assert Stakers(w, ctx) == [b];
      CreditOne(s.balances, b, ctx.stake);
    }
  }

  lemma StakeHasEffect(s: Store, c: Call, book: map<SessionId, EscrowContext>)
    requires Inv(s, book) && Follows(book, c) && c.Stake?
    ensures HasEffect(s, c)
    ensures BalancesFit(s) ==> (Step(s, c).1.None? <==> Allowed(s, c))
  {
  }

  lemma ReleaseHasEffect(s: Store, c: Call, book: map<SessionId, EscrowContext>)
    requires Inv(s, book) && Follows(book, c) && c.Release?
    ensures HasEffect(s, c)
    ensures BalancesFit(s) ==> (Step(s, c).1.None? <==> Allowed(s, c) && !CreditTooLarge(s, c))
  {
    if c.ctx.sessionId in s.wagers {
      assert RowOk(s.wagers[c.ctx.sessionId], c.ctx, s.balances.Keys);
    }
  }

  lemma RefundHasEffect(s: Store, c: Call, book: map<SessionId, EscrowContext>)
    requires Inv(s, book) && Follows(book, c) && c.Refund?
    ensures HasEffect(s, c)
    ensures BalancesFit(s) ==> (Step(s, c).1.None? <==> Allowed(s, c) && !CreditTooLarge(s, c))
  {
    if Allowed(s, c) {
      RefundCredits(s, c.ctx, book);
    }
  }

  /** In every reachable state, whatever its total, a call has exactly its documented effect or none. */
  lemma CallEffect(s: Store, c: Call, book: map<SessionId, EscrowContext>)
    requires Inv(s, book) && Follows(book, c)
    ensures HasEffect(s, c)
  {
    match c {
      case Open(_) =>
      case Stake(_, _, _) => StakeHasEffect(s, c, book);
      case Release(_, _) => ReleaseHasEffect(s, c, book);
      case Refund(_) => RefundHasEffect(s, c, book);
    }
  }

  /** And it succeeds exactly when the rules allow it and the credited balances fit their column. */
  lemma SucceedsExactlyWhen(s: Store, c: Call, book: map<SessionId, EscrowContext>)
    requires Inv(s, book) && Follows(book, c) && BalancesFit(s)
    ensures Step(s, c).1.None? <==> Allowed(s, c) && !CreditTooLarge(s, c)
  {
    match c {
      case Open(_) =>
      case Stake(_, _, _) => StakeHasEffect(s, c, book);
      case Release(_, _) => ReleaseHasEffect(s, c, book);
      case Refund(_) => RefundHasEffect(s, c, book);
    }
  }

  lemma {:induction false} CreditAllFits(balances: map<UserId, int>, users: seq<UserId>, amount: int)
    requires CreditAll(balances, users, amount).Ok?
    requires forall u :: u in balances ==> Storable(balances[u])
    ensures var r := CreditAll(balances, users, amount).value; forall u :: u in r ==> Storable(r[u])
  {
    if users != [] {
      CreditAllFits(Credit(balances, users[0], amount).value, users[1..], amount);
    }
  }

  /** Balances that fit their column keep fitting it, whatever is called. */
  lemma BalancesKeepFitting(s: Store, c: Call)
    requires BalancesFit(s)
    ensures BalancesFit(Step(s, c).0)
  {
    match c {
      case Open(_) =>
      case Stake(_, _, _) =>
      case Release(_, _) =>
      case Refund(ctx) =>
        if RefundStep(s, ctx).Ok? {
          CreditAllFits(s.balances, Stakers(s.wagers[ctx.sessionId], ctx), ctx.stake);
        }
    }
  }

  lemma HeldAreBounded(s: Store, book: map<SessionId, EscrowContext>)
    requires Inv(s, book)
    ensures 0 <= Sum(s.balances) && 0 <= Sum(HeldBySession(s.wagers))
    ensures forall u :: u in s.balances ==> s.balances[u] <= Sum(s.balances)
    ensures forall sid :: sid in s.wagers ==> Held(s.wagers[sid]) <= Sum(HeldBySession(s.wagers))
  {
    SumBounds(s.balances);
    SumBounds(HeldBySession(s.wagers));
    forall sid | sid in s.wagers
      ensures Held(s.wagers[sid]) <= Sum(HeldBySession(s.wagers))
    {
      assert HeldBySession(s.wagers)[sid] == Held(s.wagers[sid]);
    }
  }

  /** While all the money there is fits one column, no credit is ever too large. */
  lemma SmallTotalsNeverOverflow(s: Store, c: Call, book: map<SessionId, EscrowContext>)
    requires Inv(s, book) && Follows(book, c) && Total(s) <= BALANCE_MAX
    ensures BalancesFit(s) && !CreditTooLarge(s, c)
  {
    HeldAreBounded(s, book);
    if Allowed(s, c) && !c.Open? {
      assert RowOk(s.wagers[c.ctx.sessionId], c.ctx, s.balances.Keys);
      assert Held(s.wagers[c.ctx.sessionId]) + Sum(s.balances) <= BALANCE_MAX;
    }
  }

  lemma RowStaysOk(s: Store, c: Call, book: map<SessionId, EscrowContext>)
    requires Inv(s, book) && Follows(book, c)
    ensures var s', sid := Step(s, c).0, c.ctx.sessionId;
            sid in s'.wagers ==> RowOk(s'.wagers[sid], c.ctx, s.balances.Keys)
  {
    if c.ctx.sessionId in s.wagers {
      assert RowOk(s.wagers[c.ctx.sessionId], c.ctx, s.balances.Keys);
    }
  }

  lemma TotalStays(s: Store, c: Call, book: map<SessionId, EscrowContext>)
    requires Inv(s, book) && Follows(book, c)
    ensures Total(Step(s, c).0) == Total(s)
  {
    ConservesExactlyWhenStakeMatches(s, c);
    if c.ctx.sessionId in s.wagers {
      assert RowOk(s.wagers[c.ctx.sessionId], c.ctx, s.balances.Keys);
    }
  }

  /** One step keeps the invariant and the total; balances stay non-negative with it. */
  lemma StepKeepsInv(s: Store, c: Call, book: map<SessionId, EscrowContext>)
    requires Inv(s, book) && Follows(book, c)
    ensures Inv(Step(s, c).0, book) && Total(Step(s, c).0) == Total(s)
  {
    CallEffect(s, c, book);
    RowStaysOk(s, c, book);
    TotalStays(s, c, book);
    var s' := Step(s, c).0;
    forall u | u in s'.balances
      ensures 0 <= s'.balances[u]
    {
      assert Bal(s', u) == s'.balances[u] && Bal(s, u) == s.balances[u];
    }
    forall sid | sid in s'.wagers
      ensures sid in book && RowOk(s'.wagers[sid], book[sid], s'.balances.Keys)
    {
      assert sid != c.ctx.sessionId ==> s'.wagers[sid] == s.wagers[sid];
    }
  }

  // ----- Whole runs -----

  function After(s: Store, calls: seq<Call>): Store
    decreases |calls|
  {
    if calls == [] then s
    else Step(After(s, calls[..|calls| - 1]), calls[|calls| - 1]).0
  }

  lemma {:induction false} RunConserves(s: Store, calls: seq<Call>, book: map<SessionId, EscrowContext>)
    requires Inv(s, book) && AllFollow(book, calls)
    ensures Inv(After(s, calls), book)
    ensures Total(After(s, calls)) == Total(s)
    decreases |calls|
  {
    if calls != [] {
      var before := calls[..|calls| - 1];
      RunConserves(s, before, book);
      assert Follows(book, calls[|calls| - 1]);
      StepKeepsInv(After(s, before), calls[|calls| - 1], book);
    }
  }

  /** What the calls on one session changed in u's balance, over the whole run. */
  function Net(s: Store, calls: seq<Call>, sid: SessionId, u: UserId): int
    decreases |calls|
  {
    if calls == [] then 0
    else
      var before := After(s, calls[..|calls| - 1]);
      Net(s, calls[..|calls| - 1], sid, u)
      + if calls[|calls| - 1].ctx.sessionId == sid then Bal(Step(before, calls[|calls| - 1]).0, u) - Bal(before, u) else 0
  }

  /** How often a release or refund of the session went through. */
  function Settlements(s: Store, calls: seq<Call>, sid: SessionId): nat
    decreases |calls|
  {
    if calls == [] then 0
    else
      var c := calls[|calls| - 1];
      Settlements(s, calls[..|calls| - 1], sid)
      + if c.ctx.sessionId == sid && (c.Release? || c.Refund?)
           && Step(After(s, calls[..|calls| - 1]), c).1.None? then 1 else 0
  }

  /** Whom a release of the session paid, if one went through. */
  function Winner(s: Store, calls: seq<Call>, sid: SessionId): Option<UserId>
    decreases |calls|
  {
    if calls == [] then None
    else
      var c := calls[|calls| - 1];
      if c.Release? && c.ctx.sessionId == sid && Step(After(s, calls[..|calls| - 1]), c).1.None? then Some(c.winnerId)
      else Winner(s, calls[..|calls| - 1], sid)
  }

  /** How far up or down a session leaves user u. */
  function Position(w: Wager, winner: Option<UserId>, u: UserId): int {
    if w.status == OPEN then
      if (u == w.playerAId && w.stakeHashA.Some?) || (u == w.playerBId && w.stakeHashB.Some?) then -w.stake else 0
    else if winner.None? || (u != w.playerAId && u != w.playerBId) then 0
    else if winner == Some(u) then w.stake
    else -w.stake
  }

  ghost predicate SessionAccount(s: Store, calls: seq<Call>, sid: SessionId) {
    var end := After(s, calls);
    var winner := Winner(s, calls, sid);
    if sid !in end.wagers then
      winner.None? && Settlements(s, calls, sid) == 0 && forall u :: Net(s, calls, sid, u) == 0
    else
      var w := end.wagers[sid];
      && Settlements(s, calls, sid) == (if w.status == SETTLED then 1 else 0)
      && (winner.Some? <==> w.status == SETTLED && w.stakeHashA.Some?)
      && (winner.Some? ==> winner.value == w.playerAId || winner.value == w.playerBId)
      && (forall u :: Net(s, calls, sid, u) == Position(w, winner, u))
  }

  /**
   * Every pot settles at most once and pays out exactly what was staked into it:
   * a winner ends one stake up and the other player one stake down, a refund
   * leaves everybody where they began, and nobody else is ever touched.
   */
  lemma {:induction false} EveryPotSettlesExactly(
      s: Store, calls: seq<Call>, book: map<SessionId, EscrowContext>, sid: SessionId)
    requires Inv(s, book) && AllFollow(book, calls) && sid !in s.wagers
    ensures SessionAccount(s, calls, sid)
    decreases |calls|
  {
    if calls != [] {
      var n := |calls| - 1;
      var mid := After(s, calls[..n]);
      EveryPotSettlesExactly(s, calls[..n], book, sid);
      RunConserves(s, calls[..n], book);
      assert Follows(book, calls[n]);
      CallEffect(mid, calls[n], book);
      AccountStep(s, calls, book, sid);
    }
  }

  /** A call that goes through moves every user's position by exactly that user's gain. */
  lemma PositionStep(mid: Store, c: Call, book: map<SessionId, EscrowContext>, u: UserId)
    requires Inv(mid, book) && Follows(book, c) && Step(mid, c).1.None?
    ensures Allowed(mid, c)
    ensures var sid := c.ctx.sessionId;
            var winner := if c.Release? then Some(c.winnerId) else None;
            sid in Step(mid, c).0.wagers
            && Position(Step(mid, c).0.wagers[sid], winner, u)
            == (if c.Open? then 0 else Position(mid.wagers[sid], None, u)) + Gain(mid, c, u)
  {
    assert Allowed(mid, c) by { CallEffect(mid, c, book); }
    if !c.Open? {
      assert RowOk(mid.wagers[c.ctx.sessionId], c.ctx, mid.balances.Keys);
    }
  }

  /** After a call that went through, every user's net change is the position the row shows. */
  lemma NetIsPosition(s: Store, calls: seq<Call>, book: map<SessionId, EscrowContext>, sid: SessionId, u: UserId)
    requires calls != [] && SessionAccount(s, calls[..|calls| - 1], sid)
    requires var mid := After(s, calls[..|calls| - 1]); Inv(mid, book) && Follows(book, calls[|calls| - 1])
    requires calls[|calls| - 1].ctx.sessionId == sid
    requires Step(After(s, calls[..|calls| - 1]), calls[|calls| - 1]).1.None?
    ensures var c := calls[|calls| - 1];
            && sid in After(s, calls).wagers
            && Net(s, calls, sid, u)
               == Position(After(s, calls).wagers[sid], if c.Release? then Some(c.winnerId) else None, u)
  {
    var n := |calls| - 1;
    var mid, c := After(s, calls[..n]), calls[n];
    PositionStep(mid, c, book, u);
    assert Bal(Step(mid, c).0, u) == Bal(mid, u) + Gain(mid, c, u) by { CallEffect(mid, c, book); }
  }

  lemma AccountStep(s: Store, calls: seq<Call>, book: map<SessionId, EscrowContext>, sid: SessionId)
    requires calls != [] && SessionAccount(s, calls[..|calls| - 1], sid)
    requires var mid := After(s, calls[..|calls| - 1]); Inv(mid, book) && Follows(book, calls[|calls| - 1])
    ensures SessionAccount(s, calls, sid)
  {
    var n := |calls| - 1;
    var mid, c := After(s, calls[..n]), calls[n];
    if c.ctx.sessionId != sid || Step(mid, c).1.Some? {
      QuietStep(s, calls, book, sid);
    } else {
      assert Allowed(mid, c) by { CallEffect(mid, c, book); }
      forall u
        ensures sid in After(s, calls).wagers
        ensures Net(s, calls, sid, u)
             == Position(After(s, calls).wagers[sid], if c.Release? then Some(c.winnerId) else None, u)
      {
        NetIsPosition(s, calls, book, sid, u);
      }
    }
  }

  lemma QuietStep(s: Store, calls: seq<Call>, book: map<SessionId, EscrowContext>, sid: SessionId)
    requires calls != [] && SessionAccount(s, calls[..|calls| - 1], sid)
    requires var mid := After(s, calls[..|calls| - 1]); Inv(mid, book) && Follows(book, calls[|calls| - 1])
    requires calls[|calls| - 1].ctx.sessionId != sid
          || Step(After(s, calls[..|calls| - 1]), calls[|calls| - 1]).1.Some?
    ensures SessionAccount(s, calls, sid)
  {
    var n := |calls| - 1;
    var mid := After(s, calls[..n]);
    CallEffect(mid, calls[n], book);
    assert Winner(s, calls, sid) == Winner(s, calls[..n], sid);
    assert Settlements(s, calls, sid) == Settlements(s, calls[..n], sid);
    forall u
      ensures Net(s, calls, sid, u) == Net(s, calls[..n], sid, u)
    {
    }
  }
}
