/** What a settlement backend is told about one wager. */
module EscrowTypes {
  type UserId = string
  type SessionId = string

  datatype EscrowContext = EscrowContext(sessionId: SessionId, playerAId: UserId, playerBId: UserId, stake: int)
}

/**
 * The in-database settlement backend: a pot per session, held as a wager row,
 * and one balance per user. `Step` specifies every call, failures included; the
 * class is the backend itself, proved against `Step`.
 */
module MockEscrow {
  import opened Prelude
  import opened EscrowTypes

  type TxHash = string

  datatype PotState = OPEN | SETTLED

  datatype Wager = Wager(
    playerAId: UserId, playerBId: UserId, stake: int, status: PotState,
    stakeHashA: Option<TxHash>, stakeHashB: Option<TxHash>)

  datatype Store = Store(balances: map<UserId, int>, wagers: map<SessionId, Wager>)

  datatype Failure =
    | PotExists | NotAPlayer | NoPot | PotSettled | AlreadyStaked | BothMustStake
    | UserNotFound | InsufficientBalance
    | AmountOutOfRange  // an amount does not fit in i128
    | ColumnOverflow    // balances and stakes are stored in 64-bit columns

  datatype Call =
    | Open(ctx: EscrowContext)
    | Stake(userId: UserId, ctx: EscrowContext, hash: TxHash)
    | Release(winnerId: UserId, ctx: EscrowContext)
    | Refund(ctx: EscrowContext)

  const BALANCE_MAX: int := 0x7FFF_FFFF_FFFF_FFFF
  const BALANCE_MIN: int := -BALANCE_MAX - 1

  predicate Storable(v: int) {
    BALANCE_MIN <= v <= BALANCE_MAX
  }

  predicate IsPlayer(u: UserId, ctx: EscrowContext) {
    u == ctx.playerAId || u == ctx.playerBId
  }

  /** Adds to one locked user row: the row must exist, the operands must be i128, the sum must be storable. */
  function Credit(balances: map<UserId, int>, u: UserId, amount: int): Result<map<UserId, int>, Failure> {
    if u !in balances then Err(UserNotFound)
    else if !InI128(balances[u]) || !InI128(amount) then Err(AmountOutOfRange)
    else if !Storable(balances[u] + amount) then Err(ColumnOverflow)
    else Ok(balances[u := balances[u] + amount])
  }

  function CreditAll(balances: map<UserId, int>, users: seq<UserId>, amount: int): Result<map<UserId, int>, Failure> {
    if users == [] then Ok(balances)
    else
      match Credit(balances, users[0], amount)
      case Err(e) => Err(e)
      case Ok(next) => CreditAll(next, users[1..], amount)
  }

  function Stakers(w: Wager, ctx: EscrowContext): seq<UserId> {
    (if w.stakeHashA.Some? then [ctx.playerAId] else []) + (if w.stakeHashB.Some? then [ctx.playerBId] else [])
  }

  /** The state after a call and what the caller is told. */
  function Step(s: Store, c: Call): (Store, Option<Failure>) {
    match c
    case Open(ctx) => OpenStep(s, ctx)
    case Stake(u, ctx, hash) =>
      (match StakeStep(s, u, ctx, hash) case Ok(s') => (s', None) case Err(e) => (s, Some(e)))
    case Release(winner, ctx) =>
      (match ReleaseStep(s, winner, ctx) case Ok(s') => (s', None) case Err(e) => (s, Some(e)))
    case Refund(ctx) =>
      (match RefundStep(s, ctx)
       // The reply names the stake, after the rows are committed.
       case Ok(s') => (s', if InI128(ctx.stake) then None else Some(AmountOutOfRange))
       case Err(e) => (s, Some(e)))
  }

  function OpenStep(s: Store, ctx: EscrowContext): (Store, Option<Failure>) {
    if ctx.sessionId in s.wagers then (s, Some(PotExists))
    else if !Storable(ctx.stake) then (s, Some(ColumnOverflow))
    else
      var w := Wager(ctx.playerAId, ctx.playerBId, ctx.stake, OPEN, None, None);
      (s.(wagers := s.wagers[ctx.sessionId := w]), None)
  }

  function StakeStep(s: Store, u: UserId, ctx: EscrowContext, hash: TxHash): Result<Store, Failure> {
    if !IsPlayer(u, ctx) then Err(NotAPlayer)
    else if ctx.sessionId !in s.wagers then Err(NoPot)
    else
      var w := s.wagers[ctx.sessionId];
      if w.status == SETTLED then Err(PotSettled)
      else if (u == ctx.playerAId && w.stakeHashA.Some?) || (u == ctx.playerBId && w.stakeHashB.Some?) then
        Err(AlreadyStaked)
      else if u !in s.balances then Err(UserNotFound)
      else if !InI128(s.balances[u]) || !InI128(ctx.stake) then Err(AmountOutOfRange)
      else if s.balances[u] < ctx.stake then Err(InsufficientBalance)
      else if !Storable(s.balances[u] - ctx.stake) then Err(ColumnOverflow)
      else
        var w' := if u == ctx.playerAId then w.(stakeHashA := Some(hash)) else w.(stakeHashB := Some(hash));
        Ok(Store(s.balances[u := s.balances[u] - ctx.stake], s.wagers[ctx.sessionId := w']))
  }

  function ReleaseStep(s: Store, winner: UserId, ctx: EscrowContext): Result<Store, Failure> {
    if !IsPlayer(winner, ctx) then Err(NotAPlayer)
    else if !InI128(ctx.stake) then Err(AmountOutOfRange)
    else if ctx.sessionId !in s.wagers then Err(NoPot)
    else
      var w := s.wagers[ctx.sessionId];
      if w.status == SETTLED then Err(PotSettled)
      else if w.stakeHashA.None? || w.stakeHashB.None? then Err(BothMustStake)
      else
        match Credit(s.balances, winner, 2 * ctx.stake)
        case Err(e) => Err(e)
        case Ok(balances) => Ok(Store(balances, s.wagers[ctx.sessionId := w.(status := SETTLED)]))
  }

  function RefundStep(s: Store, ctx: EscrowContext): Result<Store, Failure> {
    if ctx.sessionId !in s.wagers then Err(NoPot)
    else
      var w := s.wagers[ctx.sessionId];
      if w.status == SETTLED then Err(PotSettled)
      else
        match CreditAll(s.balances, Stakers(w, ctx), ctx.stake)
        case Err(e) => Err(e)
        case Ok(balances) =>
          Ok(Store(balances,
                   s.wagers[ctx.sessionId := w.(stakeHashA := None, stakeHashB := None, status := SETTLED)]))
  }

  class MockTokenService {
    var balances: map<UserId, int>
    var wagers: map<SessionId, Wager>

    ghost function Rows(): Store
      reads this
    {
      Store(balances, wagers)
    }

    constructor (balances: map<UserId, int>)
      ensures Rows() == Store(balances, map[])
    {
      this.balances := balances;
      this.wagers := map[];
    }

    method OpenEscrow(ctx: EscrowContext) returns (failure: Option<Failure>)
      modifies this
      ensures (Rows(), failure) == Step(old(Rows()), Open(ctx))
    {
      if ctx.sessionId in wagers {
        return Some(PotExists);
      }
      if !Storable(ctx.stake) {
        return Some(ColumnOverflow);
      }
      wagers := wagers[ctx.sessionId := Wager(ctx.playerAId, ctx.playerBId, ctx.stake, OPEN, None, None)];
      failure := None;
    }

    method StakeTokens(userId: UserId, ctx: EscrowContext, stakeHash: TxHash) returns (failure: Option<Failure>)
      modifies this
      ensures (Rows(), failure) == Step(old(Rows()), Stake(userId, ctx, stakeHash))
    {
      var isPlayerA, isPlayerB := userId == ctx.playerAId, userId == ctx.playerBId;
      if !isPlayerA && !isPlayerB {
        return Some(NotAPlayer);
      }
      if ctx.sessionId !in wagers {
        return Some(NoPot);
      }
      var wager := wagers[ctx.sessionId];
      if wager.status == SETTLED {
        return Some(PotSettled);
      }
      if (isPlayerA && wager.stakeHashA.Some?) || (isPlayerB && wager.stakeHashB.Some?) {
        return Some(AlreadyStaked);
      }
      if userId !in balances {
        return Some(UserNotFound);
      }
      var balance := balances[userId];
      if !InI128(balance) || !InI128(ctx.stake) {
        return Some(AmountOutOfRange);
      }
      if balance < ctx.stake {
        return Some(InsufficientBalance);
      }
      if !Storable(balance - ctx.stake) {
        return Some(ColumnOverflow);
      }
      balances := balances[userId := balance - ctx.stake];
      if isPlayerA {
        wager := wager.(stakeHashA := Some(stakeHash));
      } else {
        wager := wager.(stakeHashB := Some(stakeHash));
      }
      wagers := wagers[ctx.sessionId := wager];
      failure := None;
    }

    method ReleaseToWinner(winnerId: UserId, ctx: EscrowContext) returns (failure: Option<Failure>)
      modifies this
      ensures (Rows(), failure) == Step(old(Rows()), Release(winnerId, ctx))
    {
      if winnerId != ctx.playerAId && winnerId != ctx.playerBId {
        return Some(NotAPlayer);
      }
      if !InI128(ctx.stake) {
        return Some(AmountOutOfRange);
      }
      var payout := 2 * ctx.stake;
      if ctx.sessionId !in wagers {
        return Some(NoPot);
      }
      var wager := wagers[ctx.sessionId];
      if wager.status == SETTLED {
        return Some(PotSettled);
      }
      if wager.stakeHashA.None? || wager.stakeHashB.None? {
        return Some(BothMustStake);
      }
      match Credit(balances, winnerId, payout) {
        case Err(e) => return Some(e);
        case Ok(credited) => balances := credited;
      }
      wagers := wagers[ctx.sessionId := wager.(status := SETTLED)];
      failure := None;
    }

    /** The refund loop works on a transaction's view; nothing shows until it commits. */
    method RefundEscrow(ctx: EscrowContext) returns (failure: Option<Failure>)
      modifies this
      ensures (Rows(), failure) == Step(old(Rows()), Refund(ctx))
    {
      if ctx.sessionId !in wagers {
        return Some(NoPot);
      }
      var wager := wagers[ctx.sessionId];
      if wager.status == SETTLED {
        return Some(PotSettled);
      }
      var refunds := [];
      if wager.stakeHashA.Some? { refunds := refunds + [ctx.playerAId]; }
      if wager.stakeHashB.Some? { refunds := refunds + [ctx.playerBId]; }

      var view := balances;
      var i := 0;
      while i < |refunds|
        invariant i <= |refunds|
        invariant CreditAll(view, refunds[i..], ctx.stake) == CreditAll(balances, refunds, ctx.stake)
      {
        match Credit(view, refunds[i], ctx.stake) {
          case Err(e) => return Some(e);
          case Ok(next) => view := next;
        }
        i := i + 1;
      }
      balances := view;
      wagers := wagers[ctx.sessionId := wager.(stakeHashA := None, stakeHashB := None, status := SETTLED)];
      failure := if InI128(ctx.stake) then None else Some(AmountOutOfRange);
    }
  }
}
