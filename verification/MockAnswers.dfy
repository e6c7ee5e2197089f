/**
 * What each call of the in-database backend answers and writes, call by call:
 * the reason of every refusal, and the row and the balances after every success.
 */
module MockAnswers {
  import opened Prelude
  import opened EscrowTypes
  import opened MockEscrow

  // ----- Reasons -----

  /** Neither of the two players of the call's context. */
  predicate Stranger(u: UserId, ctx: EscrowContext) {
    u !in {ctx.playerAId, ctx.playerBId}
  }

  predicate Live(s: Store, ctx: EscrowContext) {
    ctx.sessionId in s.wagers && s.wagers[ctx.sessionId].status != SETTLED
  }

  /** This player's own stake is on the row already. */
  predicate HasStaked(s: Store, u: UserId, ctx: EscrowContext)
    requires ctx.sessionId in s.wagers
  {
    || (u == ctx.playerAId && s.wagers[ctx.sessionId].stakeHashA != None)
    || (u == ctx.playerBId && s.wagers[ctx.sessionId].stakeHashB != None)
  }

  predicate BothStaked(s: Store, ctx: EscrowContext)
    requires ctx.sessionId in s.wagers
  {
    s.wagers[ctx.sessionId].stakeHashA != None && s.wagers[ctx.sessionId].stakeHashB != None
  }

  /** A second pot for a session is refused, and a stake past a signed 64-bit column. */
  lemma OpenAnswers(s: Store, ctx: EscrowContext)
    ensures var failure := Step(s, Open(ctx)).1;
            var fits := -9223372036854775808 <= ctx.stake <= 9223372036854775807;
            && (failure == Some(PotExists) <==> ctx.sessionId in s.wagers)
            && (failure == Some(ColumnOverflow) <==> ctx.sessionId !in s.wagers && !fits)
            && (failure == None <==> ctx.sessionId !in s.wagers && fits)
  {
  }

  /** Which guard of a stake answers what; money is looked at only when everything else is in order. */
  lemma StakeAnswers(s: Store, u: UserId, ctx: EscrowContext, hash: TxHash)
    ensures var failure := Step(s, Stake(u, ctx, hash)).1;
            && (failure == Some(NotAPlayer) <==> Stranger(u, ctx))
            && (failure == Some(NoPot) <==> !Stranger(u, ctx) && ctx.sessionId !in s.wagers)
            && (failure == Some(PotSettled) <==> !Stranger(u, ctx) && ctx.sessionId in s.wagers && !Live(s, ctx))
            && (failure == Some(AlreadyStaked) <==> Live(s, ctx) && HasStaked(s, u, ctx))
            && (failure == Some(UserNotFound) <==>
                  !Stranger(u, ctx) && Live(s, ctx) && !HasStaked(s, u, ctx) && u !in s.balances)
  {
  }

  /** With storable numbers a player who may stake is refused for one reason only: too little money. */
  lemma StakeMoneyAnswers(s: Store, u: UserId, ctx: EscrowContext, hash: TxHash)
    requires !Stranger(u, ctx) && Live(s, ctx) && !HasStaked(s, u, ctx) && u in s.balances
    requires 0 <= s.balances[u] <= 9223372036854775807 && 0 <= ctx.stake <= 9223372036854775807
    ensures Step(s, Stake(u, ctx, hash)).1 == if s.balances[u] < ctx.stake then Some(InsufficientBalance) else None
  {
  }

  /** Which guard of a release answers what; a stake outside i128 cannot be doubled, before the row is looked at. */
  lemma ReleaseAnswers(s: Store, winner: UserId, ctx: EscrowContext)
    ensures var failure := Step(s, Release(winner, ctx)).1;
            var inOrder := !Stranger(winner, ctx) && InI128(ctx.stake);
            && (failure == Some(NotAPlayer) <==> Stranger(winner, ctx))
            && (!Stranger(winner, ctx) && !InI128(ctx.stake) ==> failure == Some(AmountOutOfRange))
            && (failure == Some(NoPot) <==> inOrder && ctx.sessionId !in s.wagers)
            && (failure == Some(PotSettled) <==> inOrder && ctx.sessionId in s.wagers && !Live(s, ctx))
            && (failure == Some(BothMustStake) <==> inOrder && Live(s, ctx) && !BothStaked(s, ctx))
            && (failure == Some(UserNotFound) <==>
                  inOrder && Live(s, ctx) && BothStaked(s, ctx) && winner !in s.balances)
  {
  }

  /** A refund asks for a live pot and nothing else but the rows of those who staked. */
  lemma RefundAnswers(s: Store, ctx: EscrowContext)
    ensures var failure := Step(s, Refund(ctx)).1;
            && (failure == Some(NoPot) <==> ctx.sessionId !in s.wagers)
            && (failure == Some(PotSettled) <==> ctx.sessionId in s.wagers && !Live(s, ctx))
            && (failure.Some? && Live(s, ctx) ==> failure.value in {UserNotFound, AmountOutOfRange, ColumnOverflow})
  {
    if Live(s, ctx) {
      CreditAllAnswers(s.balances, Stakers(s.wagers[ctx.sessionId], ctx), ctx.stake);
    }
  }

  lemma {:induction false} CreditAllAnswers(balances: map<UserId, int>, users: seq<UserId>, amount: int)
    ensures var r := CreditAll(balances, users, amount);
            r.Err? ==> r.error in {UserNotFound, AmountOutOfRange, ColumnOverflow}
  {
    if users != [] && Credit(balances, users[0], amount).Ok? {
      CreditAllAnswers(Credit(balances, users[0], amount).value, users[1..], amount);
    }
  }

  // ----- What is written -----

  /** Every row but this session's stands as it was. */
  ghost predicate OtherRowsStand(s: Store, s': Store, sid: SessionId) {
    && s'.wagers.Keys == s.wagers.Keys + {sid}
    && forall other :: other in s.wagers && other != sid ==> s'.wagers[other] == s.wagers[other]
  }

  /** A new row names the context's players and stake, is open, and holds no stake; no balance moves. */
  lemma OpenExactly(s: Store, ctx: EscrowContext)
    requires Step(s, Open(ctx)).1 == None
    ensures var s' := Step(s, Open(ctx)).0;
            && OtherRowsStand(s, s', ctx.sessionId) && s'.balances == s.balances
            && var w := s'.wagers[ctx.sessionId];
            && w.playerAId == ctx.playerAId && w.playerBId == ctx.playerBId && w.stake == ctx.stake
            && w.status == OPEN && w.stakeHashA == None && w.stakeHashB == None
  {
  }

  /** A stake puts its own hash on the payer's side of the row, and takes the stake from the payer alone. */
  lemma StakeExactly(s: Store, u: UserId, ctx: EscrowContext, hash: TxHash)
    requires Step(s, Stake(u, ctx, hash)).1 == None
    ensures var s' := Step(s, Stake(u, ctx, hash)).0;
            && ctx.sessionId in s.wagers && u in s.balances
            && OtherRowsStand(s, s', ctx.sessionId)
            && var w, w' := s.wagers[ctx.sessionId], s'.wagers[ctx.sessionId];
            && (w'.playerAId, w'.playerBId, w'.stake, w'.status) == (w.playerAId, w.playerBId, w.stake, w.status)
            && (u == ctx.playerAId ==> w'.stakeHashA == Some(hash) && w'.stakeHashB == w.stakeHashB)
            && (u != ctx.playerAId ==> w'.stakeHashB == Some(hash) && w'.stakeHashA == w.stakeHashA)
            && s'.balances.Keys == s.balances.Keys
            && (forall v :: v in s.balances ==> s'.balances[v] == s.balances[v] - if v == u then ctx.stake else 0)
  {
  }

  /** A release settles the row, leaves its stakes on record, and pays the winner twice the stake. */
  lemma ReleaseExactly(s: Store, winner: UserId, ctx: EscrowContext)
    requires Step(s, Release(winner, ctx)).1 == None
    ensures var s' := Step(s, Release(winner, ctx)).0;
            && ctx.sessionId in s.wagers && winner in s.balances
            && OtherRowsStand(s, s', ctx.sessionId)
            && var w, w' := s.wagers[ctx.sessionId], s'.wagers[ctx.sessionId];
            && w.status == OPEN && w'.status == SETTLED
            && (w'.playerAId, w'.playerBId, w'.stake) == (w.playerAId, w.playerBId, w.stake)
            && w'.stakeHashA == w.stakeHashA && w'.stakeHashB == w.stakeHashB
            && s'.balances.Keys == s.balances.Keys
            && (forall v :: v in s.balances ==>
                  s'.balances[v] == s.balances[v] + if v == winner then 2 * ctx.stake else 0)
  {
  }

  /** One stake for each side of the row that has one; twice for somebody who is both players. */
  function Returned(w: Wager, ctx: EscrowContext, v: UserId): int {
    (if v == ctx.playerAId && w.stakeHashA != None then ctx.stake else 0)
    + (if v == ctx.playerBId && w.stakeHashB != None then ctx.stake else 0)
  }

  /** A refund settles the row, takes both stakes off it, and gives each staker that stake back. */
  lemma RefundExactly(s: Store, ctx: EscrowContext)
    requires Step(s, Refund(ctx)).1 == None
    ensures var s' := Step(s, Refund(ctx)).0;
            && ctx.sessionId in s.wagers
            && OtherRowsStand(s, s', ctx.sessionId)
            && var w, w' := s.wagers[ctx.sessionId], s'.wagers[ctx.sessionId];
            && w.status == OPEN && w'.status == SETTLED
            && (w'.playerAId, w'.playerBId, w'.stake) == (w.playerAId, w.playerBId, w.stake)
            && w'.stakeHashA == None && w'.stakeHashB == None
            && s'.balances.Keys == s.balances.Keys
            && (forall v :: v in s.balances ==> s'.balances[v] == s.balances[v] + Returned(w, ctx, v))
  {
    var w := s.wagers[ctx.sessionId];
    CreditAllExactly(s.balances, Stakers(w, ctx), ctx.stake);
    forall v
      ensures Credited(Stakers(w, ctx), ctx.stake, v) == Returned(w, ctx, v)
    {
      StakersAreCredited(w, ctx, v);
    }
  }

  /** What user v is given when each of the users is credited the amount. */
  function Credited(users: seq<UserId>, amount: int, v: UserId): int {
    if users == [] then 0 else (if users[0] == v then amount else 0) + Credited(users[1..], amount, v)
  }

  lemma StakersAreCredited(w: Wager, ctx: EscrowContext, v: UserId)
    ensures Credited(Stakers(w, ctx), ctx.stake, v) == Returned(w, ctx, v)
  {
    var a := if w.stakeHashA.Some? then [ctx.playerAId] else [];
    var b := if w.stakeHashB.Some? then [ctx.playerBId] else [];
    assert Credited(b, ctx.stake, v) == if b != [] && ctx.playerBId == v then ctx.stake else 0;
    if a == [] {
      assert a + b == b;
    } else {
      assert (a + b)[1..] == b;
    }
  }

  lemma {:induction false} CreditAllExactly(balances: map<UserId, int>, users: seq<UserId>, amount: int)
    requires CreditAll(balances, users, amount).Ok?
    ensures var r := CreditAll(balances, users, amount).value;
            r.Keys == balances.Keys
            && forall v :: v in balances ==> r[v] == balances[v] + Credited(users, amount, v)
  {
    if users != [] {
      CreditAllExactly(Credit(balances, users[0], amount).value, users[1..], amount);
    }
  }
}
