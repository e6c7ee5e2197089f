/**
 * The in-database backend and the contract driven by the same calls. They give
 * one verdict exactly when the money fits on both sides or on neither; then
 * their pots stay alike, and their balances differ by the fees alone, which
 * without a fee is not at all.
 */
module EscrowAgreement {
  import opened Prelude
  import opened EscrowTypes
  import opened MapSum
  import M = MockEscrow
  import ML = MockLedger
  import C = EscrowContract
  import CS = EscrowSafety

  type Book = map<SessionId, EscrowContext>

  /** How a wager row shows up on chain. */
  predicate SamePot(w: M.Wager, p: C.Pot) {
    && w.playerAId == p.playerA && w.playerBId == p.playerB && w.stake == p.stake
    && (w.status == M.OPEN ==>
          && p.fundedA == w.stakeHashA.Some? && p.fundedB == w.stakeHashB.Some?
          && p.status == if p.fundedA && p.fundedB then C.Funded else C.Open)
    && (w.status == M.SETTLED ==> p.status == if w.stakeHashA.Some? then C.Resolved else C.Refunded)
  }

  /** Same pots, whatever fee the contract charges and whatever balances the players have. */
  ghost predicate SameBooks(m: M.Store, c: C.Chain, book: Book) {
    && ML.Inv(m, book) && ML.BalancesFit(m) && CS.Inv(c)
    && c.self !in m.balances
    && (forall sid :: sid in book ==> !M.IsPlayer(c.self, book[sid]))
    && m.wagers.Keys == c.pots.Keys
    && (forall sid :: sid in m.wagers ==> SamePot(m.wagers[sid], c.pots[sid]))
  }

  /** Same pots and same player balances. */
  ghost predicate RelatedUpToFee(m: M.Store, c: C.Chain, book: Book) {
    SameBooks(m, c, book) && forall u :: u != c.self ==> ML.Bal(m, u) == C.BalanceOf(c.tokens, u)
  }

  ghost predicate Related(m: M.Store, c: C.Chain, book: Book) {
    RelatedUpToFee(m, c, book) && c.config.value.feeBps == 0
  }

  /** The transaction the backend sends for a call, at ledger `now`: players sign stakes, the resolver the rest. */
  function OnChain(call: M.Call, resolver: C.Address, now: nat): C.Tx {
    var ctx := call.ctx;
    match call
    case Open(_) => C.Tx(C.OpenPot(ctx.sessionId, ctx.playerAId, ctx.playerBId, ctx.stake, now), {resolver})
    case Stake(u, _, _) => C.Tx(C.Call.Stake(ctx.sessionId, u), {u})
    case Release(winner, _) => C.Tx(C.Call.Resolve(ctx.sessionId, winner), {resolver})
    case Refund(_) => C.Tx(C.Call.Refund(ctx.sessionId), {resolver})
  }

  // ----- When one call gets the same verdict -----

  /** The rules both backends share, money aside. */
  predicate Ruled(m: M.Store, call: M.Call) {
    var ctx := call.ctx;
    if call.Open? then ctx.sessionId !in m.wagers
    else
      && ctx.sessionId in m.wagers
      && var w := m.wagers[ctx.sessionId];
      && w.status == M.OPEN
      && match call
         case Stake(u, _, _) =>
           (u == ctx.playerAId && w.stakeHashA.None?) || (u == ctx.playerBId && w.stakeHashB.None?)
         case Release(winner, _) => M.IsPlayer(winner, ctx) && w.stakeHashA.Some? && w.stakeHashB.Some?
         case _ => true
  }

  /** The money guards of the database: the payer has the stake, and what is stored fits 64 bits. */
  predicate MockPays(m: M.Store, call: M.Call) {
    var ctx := call.ctx;
    match call
    case Open(_) => M.Storable(ctx.stake)
    case Stake(u, _, _) => u in m.balances && ctx.stake <= m.balances[u]
    case Release(winner, _) => M.Storable(ML.Bal(m, winner) + 2 * ctx.stake)
    case Refund(_) =>
      ctx.sessionId in m.wagers ==>
        && (m.wagers[ctx.sessionId].stakeHashA.Some? ==> M.Storable(ML.Bal(m, ctx.playerAId) + ctx.stake))
        && (m.wagers[ctx.sessionId].stakeHashB.Some? ==> M.Storable(ML.Bal(m, ctx.playerBId) + ctx.stake))
  }

  /** The money guards of the chain: the payer has the stake, and every balance and product fits i128. */
  predicate ChainPays(c: C.Chain, call: M.Call) {
    var sid := call.ctx.sessionId;
    match call
    case Open(_) => true
    case Stake(u, _, _) =>
      call.ctx.stake <= C.BalanceOf(c.tokens, u) && CS.TakesIn(c.tokens, u, c.self, call.ctx.stake)
    case Release(winner, _) =>
      c.config.Some? && sid in c.pots && c.pots[sid].stake >= 0 && CS.ResolveFits(c, sid, winner)
    case Refund(_) => sid in c.pots && CS.RefundFits(c, sid)
  }

  /** For a call within the rules, the money is there on both sides or on neither. */
  predicate PaysAlike(m: M.Store, c: C.Chain, call: M.Call) {
    Ruled(m, call) ==> (MockPays(m, call) <==> ChainPays(c, call))
  }

  lemma MockSucceedsExactlyWhen(m: M.Store, book: Book, call: M.Call)
    requires ML.Inv(m, book) && ML.BalancesFit(m) && ML.Follows(book, call)
    ensures M.Step(m, call).1.None? <==> Ruled(m, call) && MockPays(m, call)
  {
    ML.SucceedsExactlyWhen(m, call, book);
  }

  lemma ChainSucceedsExactlyWhen(m: M.Store, c: C.Chain, book: Book, call: M.Call, now: nat)
    requires SameBooks(m, c, book) && ML.Follows(book, call)
    ensures C.Exec(c, OnChain(call, c.config.value.resolver, now)).1 == C.Done <==> Ruled(m, call) && ChainPays(c, call)
  {
    var sid := call.ctx.sessionId;
    var resolver := c.config.value.resolver;
    if sid in m.wagers {
      assert SamePot(m.wagers[sid], c.pots[sid]) && ML.RowOk(m.wagers[sid], call.ctx, m.balances.Keys);
      assert CS.PotOk(c.pots[sid], c.self);
    }
    match call {
      case Open(_) =>
      case Stake(u, _, _) => CS.StakeEffect(c, sid, u, {u});
      case Release(winner, _) => CS.ResolvePaysTwoStakes(c, sid, winner, {resolver});
      case Refund(_) => CS.RefundReturnsStakes(c, sid, {resolver});
    }
  }

  /** With any fee and any balances: the verdicts are the same exactly when the money guards are. */
  lemma SameVerdictExactlyWhen(m: M.Store, c: C.Chain, book: Book, call: M.Call, now: nat)
    requires SameBooks(m, c, book) && ML.Follows(book, call)
    ensures (M.Step(m, call).1.None? <==> C.Exec(c, OnChain(call, c.config.value.resolver, now)).1 == C.Done)
       <==> PaysAlike(m, c, call)
  {
    MockSucceedsExactlyWhen(m, book, call);
    ChainSucceedsExactlyWhen(m, c, book, call, now);
  }

  /** A new pot whose stake does not fit the stake column. */
  predicate OpensTooLarge(m: M.Store, call: M.Call) {
    call.Open? && call.ctx.sessionId !in m.wagers && !M.Storable(call.ctx.stake)
  }

  /** A stake the escrow account has no room for within i128. */
  predicate VaultTooFull(m: M.Store, c: C.Chain, call: M.Call) {
    call.Stake? && ML.Allowed(m, call) && !CS.TakesIn(c.tokens, call.userId, c.self, call.ctx.stake)
  }

  /** The three ways one side runs out of digits before the other. */
  predicate Strays(m: M.Store, c: C.Chain, call: M.Call) {
    OpensTooLarge(m, call) || ML.CreditTooLarge(m, call) || VaultTooFull(m, c, call)
  }

  lemma ReleaseFitsWithoutFee(m: M.Store, c: C.Chain, book: Book, call: M.Call)
    requires Related(m, c, book) && ML.Follows(book, call) && call.Release? && Ruled(m, call)
    ensures ChainPays(c, call)
  {
    var sid := call.ctx.sessionId;
    assert SamePot(m.wagers[sid], c.pots[sid]) && ML.RowOk(m.wagers[sid], call.ctx, m.balances.Keys);
    assert CS.Fee(c.pots[sid].stake, 0) == 0;
    assert C.BalanceOf(c.tokens, call.winnerId) == ML.Bal(m, call.winnerId) <= M.BALANCE_MAX;
  }

  lemma RefundFitsAlways(m: M.Store, c: C.Chain, book: Book, call: M.Call)
    requires Related(m, c, book) && ML.Follows(book, call) && call.Refund? && Ruled(m, call)
    ensures ChainPays(c, call)
  {
    var sid := call.ctx.sessionId;
    assert SamePot(m.wagers[sid], c.pots[sid]) && ML.RowOk(m.wagers[sid], call.ctx, m.balances.Keys);
    assert C.BalanceOf(c.tokens, call.ctx.playerAId) == ML.Bal(m, call.ctx.playerAId) <= M.BALANCE_MAX;
    assert C.BalanceOf(c.tokens, call.ctx.playerBId) == ML.Bal(m, call.ctx.playerBId) <= M.BALANCE_MAX;
  }

  /** Without a fee and with equal balances, only those three can part the verdicts, and each of them does. */
  lemma PaysAlikeExactlyWhen(m: M.Store, c: C.Chain, book: Book, call: M.Call)
    requires Related(m, c, book) && ML.Follows(book, call)
    ensures PaysAlike(m, c, call) <==> !Strays(m, c, call)
  {
    if Ruled(m, call) {
      match call {
        case Open(_) =>
        case Stake(u, _, _) =>
          assert ML.RowOk(m.wagers[call.ctx.sessionId], call.ctx, m.balances.Keys);
          assert ML.Bal(m, u) == C.BalanceOf(c.tokens, u);
        case Release(_, _) => ReleaseFitsWithoutFee(m, c, book, call);
        case Refund(_) => RefundFitsAlways(m, c, book, call);
      }
    }
  }

  /** While the supply fits i128 the escrow account always has room. */
  lemma SupplyLeavesVaultRoom(m: M.Store, c: C.Chain, book: Book, call: M.Call)
    requires Related(m, c, book) && ML.Follows(book, call) && CS.SupplyFits(c.tokens)
    ensures !VaultTooFull(m, c, call)
  {
    if call.Stake? && ML.Allowed(m, call) {
      assert ML.RowOk(m.wagers[call.ctx.sessionId], call.ctx, m.balances.Keys);
      assert ML.Bal(m, call.userId) == C.BalanceOf(c.tokens, call.userId);
      CS.SupplyLeavesRoom(c.tokens, call.userId, c.self, call.ctx.stake);
    }
  }

  // ----- Inputs on which the verdicts differ -----

  /** A stake of 2^63 opens a pot on chain that the database refuses. */
  lemma WideStakeOpensOnChainOnly()
    ensures var call := M.Open(EscrowContext("s", "a", "b", M.BALANCE_MAX + 1));
            var c := C.Deployed("self", "admin", "token", "resolver", map[]);
            && M.Step(M.Store(map[], map[]), call).1 == Some(M.ColumnOverflow)
            && C.Exec(c, OnChain(call, "resolver", 0)).1 == C.Done
  {
  }

  /** Two players with 2^63 - 1 each and a pot of 1 each: the winner is paid on chain, but not in the database. */
  lemma FullBalanceIsPaidOnChainOnly()
    ensures var most := M.BALANCE_MAX;
            var row := M.Wager("a", "b", 1, M.OPEN, Some("h1"), Some("h2"));
            var m := M.Store(map["a" := most - 1, "b" := most - 1], map["s" := row]);
            var pot := C.Pot("a", "b", 1, true, true, C.Funded, 0);
            var c := C.Chain("self", Some(C.Config("admin", "token", "resolver", 0, None)), Some(2), map["s" := pot],
                             map["a" := most - 1, "b" := most - 1, "self" := 2]);
            var call := M.Release("a", EscrowContext("s", "a", "b", 1));
            && M.Step(m, call).1 == Some(M.ColumnOverflow)
            && C.Exec(c, OnChain(call, "resolver", 0)).1 == C.Done
  {
  }

  /** An escrow account that already holds the largest i128 takes no stake; the database does. */
  lemma FullVaultTakesNoStake()
    ensures var row := M.Wager("a", "b", 1, M.OPEN, None, None);
            var m := M.Store(map["a" := 1, "b" := 1], map["s" := row]);
            var pot := C.Pot("a", "b", 1, false, false, C.Open, 0);
            var c := C.Chain("self", Some(C.Config("admin", "token", "resolver", 0, None)), Some(2), map["s" := pot],
                             map["a" := 1, "b" := 1, "self" := I128_MAX]);
            var call := M.Call.Stake("a", EscrowContext("s", "a", "b", 1), "h1");
            && M.Step(m, call).1.None?
            && C.Exec(c, OnChain(call, "resolver", 0)).1 == C.Trapped
  {
  }

  // ----- What one call does to the balances -----

  /** The fee on a release that goes through: what user u would have got without it, less what u got of it. */
  function FeeShift(m: M.Store, cfg: C.Config, call: M.Call, u: UserId): int {
    if !call.Release? || M.Step(m, call).1.Some? || call.ctx.stake < 0 then 0
    else
      var fee := CS.Fee(call.ctx.stake, cfg.feeBps);
      (if u == call.winnerId then fee else 0) - (if cfg.feeReceiver == Some(u) then fee else 0)
  }

  ghost predicate GainsUpToFee(m: M.Store, c: C.Chain, call: M.Call, c': C.Chain)
    requires c.config.Some? && ML.Allowed(m, call)
  {
    forall u :: u != c.self ==>
      C.BalanceOf(c'.tokens, u) == C.BalanceOf(c.tokens, u) + ML.Gain(m, call, u) - FeeShift(m, c.config.value, call, u)
  }

  lemma ReleaseGains(m: M.Store, c: C.Chain, book: Book, call: M.Call, now: nat)
    requires SameBooks(m, c, book) && ML.Follows(book, call) && call.Release?
    requires M.Step(m, call).1.None? && ML.Allowed(m, call)
    requires C.Exec(c, OnChain(call, c.config.value.resolver, now)).1 == C.Done
    ensures GainsUpToFee(m, c, call, C.Exec(c, OnChain(call, c.config.value.resolver, now)).0)
  {
    var sid := call.ctx.sessionId;
    CS.ResolvePaysTwoStakes(c, sid, call.winnerId, {c.config.value.resolver});
    assert SamePot(m.wagers[sid], c.pots[sid]) && ML.RowOk(m.wagers[sid], call.ctx, m.balances.Keys);
  }

  lemma StakeGains(m: M.Store, c: C.Chain, book: Book, call: M.Call, now: nat)
    requires SameBooks(m, c, book) && ML.Follows(book, call) && call.Stake? && ML.Allowed(m, call)
    requires C.Exec(c, OnChain(call, c.config.value.resolver, now)).1 == C.Done
    ensures GainsUpToFee(m, c, call, C.Exec(c, OnChain(call, c.config.value.resolver, now)).0)
  {
    var sid := call.ctx.sessionId;
    CS.StakeEffect(c, sid, call.userId, {call.userId});
    assert SamePot(m.wagers[sid], c.pots[sid]) && ML.RowOk(m.wagers[sid], call.ctx, m.balances.Keys);
  }

  lemma RefundGains(m: M.Store, c: C.Chain, book: Book, call: M.Call, now: nat)
    requires SameBooks(m, c, book) && ML.Follows(book, call) && call.Refund? && ML.Allowed(m, call)
    requires C.Exec(c, OnChain(call, c.config.value.resolver, now)).1 == C.Done
    ensures GainsUpToFee(m, c, call, C.Exec(c, OnChain(call, c.config.value.resolver, now)).0)
  {
    var sid := call.ctx.sessionId;
    CS.RefundReturnsStakes(c, sid, {c.config.value.resolver});
    assert SamePot(m.wagers[sid], c.pots[sid]) && ML.RowOk(m.wagers[sid], call.ctx, m.balances.Keys);
  }

  /** A call both accept moves the same money on both sides, up to the fee. */
  lemma SameGains(m: M.Store, c: C.Chain, book: Book, call: M.Call, now: nat)
    requires SameBooks(m, c, book) && ML.Follows(book, call) && M.Step(m, call).1.None?
    requires C.Exec(c, OnChain(call, c.config.value.resolver, now)).1 == C.Done
    ensures ML.Allowed(m, call)
    ensures GainsUpToFee(m, c, call, C.Exec(c, OnChain(call, c.config.value.resolver, now)).0)
  {
    assert ML.Allowed(m, call) by { ML.CallEffect(m, call, book); }
    match call {
      case Open(_) =>
      case Stake(_, _, _) => StakeGains(m, c, book, call, now);
      case Release(_, _) => ReleaseGains(m, c, book, call, now);
      case Refund(_) => RefundGains(m, c, book, call, now);
    }
  }

  function Ahead(m: M.Store, c: C.Chain, u: UserId): int {
    ML.Bal(m, u) - C.BalanceOf(c.tokens, u)
  }

  /** A call on which the verdicts agree keeps the pots alike and moves balances apart by the fee alone. */
  lemma StepDrifts(m: M.Store, c: C.Chain, book: Book, call: M.Call, now: nat)
    requires SameBooks(m, c, book) && ML.Follows(book, call) && c.config.value.resolver != c.self
    requires PaysAlike(m, c, call)
    ensures var c' := C.Exec(c, OnChain(call, c.config.value.resolver, now)).0;
            && SameBooks(M.Step(m, call).0, c', book) && c'.self == c.self && c'.config == c.config
            && Sum(c'.tokens) == Sum(c.tokens)
            && forall u :: u != c.self ==>
                 Ahead(M.Step(m, call).0, c', u) == Ahead(m, c, u) + FeeShift(m, c.config.value, call, u)
  {
    var tx := OnChain(call, c.config.value.resolver, now);
    SameVerdictExactlyWhen(m, c, book, call, now);
    ML.CallEffect(m, call, book);
    if M.Step(m, call).1.Some? {
      CS.RefusedChangesNothing(c, tx);
    } else {
      ML.StepKeepsInv(m, call, book);
      ML.BalancesKeepFitting(m, call);
      assert c.self !in tx.signers;
      CS.StepIsSolvent(c, tx);
      SameGains(m, c, book, call, now);
      SamePots(m, c, book, call, now);
    }
  }

  /** Without a fee, a call that does not stray gets one verdict and keeps the two backends related. */
  lemma StepAgrees(m: M.Store, c: C.Chain, book: Book, call: M.Call, now: nat)
    requires Related(m, c, book) && ML.Follows(book, call) && c.config.value.resolver != c.self
    requires !Strays(m, c, call)
    ensures var tx := OnChain(call, c.config.value.resolver, now);
            && (M.Step(m, call).1.None? <==> C.Exec(c, tx).1 == C.Done)
            && Related(M.Step(m, call).0, C.Exec(c, tx).0, book)
            && C.Exec(c, tx).0.self == c.self
            && C.Exec(c, tx).0.config == c.config
            && Sum(C.Exec(c, tx).0.tokens) == Sum(c.tokens)
  {
    PaysAlikeExactlyWhen(m, c, book, call);
    SameVerdictExactlyWhen(m, c, book, call, now);
    StepDrifts(m, c, book, call, now);
    NoFeeNoShift(m, c.config.value, call);
    var m', c' := M.Step(m, call).0, C.Exec(c, OnChain(call, c.config.value.resolver, now)).0;
    forall u | u != c.self ensures ML.Bal(m', u) == C.BalanceOf(c'.tokens, u) {
      assert Ahead(m', c', u) == Ahead(m, c, u) == 0;
    }
  }

  lemma NoFeeNoShift(m: M.Store, cfg: C.Config, call: M.Call)
    requires cfg.feeBps == 0
    ensures forall u :: FeeShift(m, cfg, call, u) == 0
  {
  }

  /** The row and the pot a call leaves behind show the same thing, and no other row or pot changed. */
  ghost predicate SamePotAfter(m: M.Store, c: C.Chain, call: M.Call, tx: C.Tx) {
    var sid, m', c' := call.ctx.sessionId, M.Step(m, call).0, C.Exec(c, tx).0;
    && sid in m'.wagers && sid in c'.pots && SamePot(m'.wagers[sid], c'.pots[sid])
    && m'.wagers == m.wagers[sid := m'.wagers[sid]]
    && c'.pots == c.pots[sid := c'.pots[sid]]
    && c'.config == c.config
  }

  lemma StakeMarksPot(c: C.Chain, sid: SessionId, player: C.Address, signers: set<C.Address>)
    requires C.ExecStake(c, sid, player, signers).1 == C.Done
    ensures var c' := C.ExecStake(c, sid, player, signers).0;
            && sid in c.pots && c'.config == c.config
            && var pot := c.pots[sid];
            && var a, b := pot.fundedA || player == pot.playerA, pot.fundedB || player != pot.playerA;
            c'.pots == c.pots[sid := pot.(fundedA := a, fundedB := b, status := if a && b then C.Funded else C.Open)]
  {
  }

  lemma ResolveMarksPot(c: C.Chain, sid: SessionId, winner: C.Address, signers: set<C.Address>)
    requires C.ExecResolve(c, sid, winner, signers).1 == C.Done
    ensures var c' := C.ExecResolve(c, sid, winner, signers).0;
            && sid in c.pots && c'.config == c.config && c'.pots == c.pots[sid := c.pots[sid].(status := C.Resolved)]
  {
  }

  lemma RefundMarksPot(c: C.Chain, sid: SessionId, signers: set<C.Address>)
    requires C.ExecRefund(c, sid, signers).1 == C.Done
    ensures var c' := C.ExecRefund(c, sid, signers).0;
            && sid in c.pots && c'.config == c.config && c'.pots == c.pots[sid := c.pots[sid].(status := C.Refunded)]
  {
  }

  lemma StakeMarksRow(m: M.Store, call: M.Call)
    requires call.Stake? && M.Step(m, call).1.None?
    ensures var m', sid := M.Step(m, call).0, call.ctx.sessionId;
            && sid in m.wagers
            && m'.wagers == m.wagers[sid := if call.userId == call.ctx.playerAId
                                            then m.wagers[sid].(stakeHashA := Some(call.hash))
                                            else m.wagers[sid].(stakeHashB := Some(call.hash))]
  {
  }

  lemma ReleaseMarksRow(m: M.Store, call: M.Call)
    requires call.Release? && M.Step(m, call).1.None?
    ensures var m', sid := M.Step(m, call).0, call.ctx.sessionId;
            && sid in m.wagers && m.wagers[sid].stakeHashA.Some?
            && m'.wagers == m.wagers[sid := m.wagers[sid].(status := M.SETTLED)]
  {
  }

  lemma RefundMarksRow(m: M.Store, call: M.Call)
    requires call.Refund? && M.Step(m, call).1.None?
    ensures var m', sid := M.Step(m, call).0, call.ctx.sessionId;
            && sid in m.wagers
            && m'.wagers == m.wagers[sid := m.wagers[sid].(stakeHashA := None, stakeHashB := None, status := M.SETTLED)]
  {
  }

  /** Both backends accepted the call, for a pot they showed alike. */
  ghost predicate BothAccept(m: M.Store, c: C.Chain, call: M.Call, tx: C.Tx) {
    var sid := call.ctx.sessionId;
    && M.Step(m, call).1.None? && C.Exec(c, tx).1 == C.Done
    && sid in m.wagers && sid in c.pots && SamePot(m.wagers[sid], c.pots[sid])
    && m.wagers[sid].playerAId == call.ctx.playerAId && m.wagers[sid].playerBId == call.ctx.playerBId
    && m.wagers[sid].status == M.OPEN
  }

  lemma StakeMarksSamePot(m: M.Store, c: C.Chain, call: M.Call, tx: C.Tx)
    requires call.Stake? && tx.call == C.Call.Stake(call.ctx.sessionId, call.userId) && BothAccept(m, c, call, tx)
    ensures SamePotAfter(m, c, call, tx)
  {
    StakeMarksRow(m, call);
    StakeMarksPot(c, call.ctx.sessionId, call.userId, tx.signers);
  }

  lemma ReleaseMarksSamePot(m: M.Store, c: C.Chain, call: M.Call, tx: C.Tx)
    requires call.Release? && tx.call == C.Call.Resolve(call.ctx.sessionId, call.winnerId) && BothAccept(m, c, call, tx)
    ensures SamePotAfter(m, c, call, tx)
  {
    ReleaseMarksRow(m, call);
    ResolveMarksPot(c, call.ctx.sessionId, call.winnerId, tx.signers);
  }

  lemma RefundMarksSamePot(m: M.Store, c: C.Chain, call: M.Call, tx: C.Tx)
    requires call.Refund? && tx.call == C.Call.Refund(call.ctx.sessionId) && BothAccept(m, c, call, tx)
    ensures SamePotAfter(m, c, call, tx)
  {
    RefundMarksRow(m, call);
    RefundMarksPot(c, call.ctx.sessionId, tx.signers);
  }

  lemma OpenMakesSamePot(m: M.Store, c: C.Chain, book: Book, call: M.Call, tx: C.Tx)
    requires SameBooks(m, c, book) && ML.Follows(book, call) && call.Open? && M.Step(m, call).1.None?
    requires tx.call.OpenPot? && tx == OnChain(call, c.config.value.resolver, tx.call.ledgerNow)
    requires C.Exec(c, tx).1 == C.Done
    ensures SamePotAfter(m, c, call, tx)
  {
  }

  lemma BothAcceptAllowed(m: M.Store, c: C.Chain, book: Book, call: M.Call, tx: C.Tx)
    requires SameBooks(m, c, book) && ML.Follows(book, call) && !call.Open? && M.Step(m, call).1.None?
    requires C.Exec(c, tx).1 == C.Done
    ensures BothAccept(m, c, call, tx)
  {
    ML.CallEffect(m, call, book);
    assert ML.RowOk(m.wagers[call.ctx.sessionId], call.ctx, m.balances.Keys);
  }

  lemma SamePots(m: M.Store, c: C.Chain, book: Book, call: M.Call, now: nat)
    requires SameBooks(m, c, book) && ML.Follows(book, call) && M.Step(m, call).1.None?
    requires C.Exec(c, OnChain(call, c.config.value.resolver, now)).1 == C.Done
    ensures var m' := M.Step(m, call).0;
            var c' := C.Exec(c, OnChain(call, c.config.value.resolver, now)).0;
            && m'.wagers.Keys == c'.pots.Keys
            && (forall sid :: sid in m'.wagers ==> SamePot(m'.wagers[sid], c'.pots[sid]))
            && c'.config == c.config
  {
    var tx := OnChain(call, c.config.value.resolver, now);
    if call.Open? {
      OpenMakesSamePot(m, c, book, call, tx);
    } else {
      BothAcceptAllowed(m, c, book, call, tx);
    }
    match call {
      case Open(_) =>
      case Stake(_, _, _) => StakeMarksSamePot(m, c, call, tx);
      case Release(_, _) => ReleaseMarksSamePot(m, c, call, tx);
      case Refund(_) => RefundMarksSamePot(m, c, call, tx);
    }
    assert SamePotAfter(m, c, call, tx);
  }

  // ----- Whole runs -----

  function AllOnChain(calls: seq<M.Call>, resolver: C.Address, ledgers: seq<nat>): seq<C.Tx>
    requires |ledgers| == |calls|
  {
    seq(|calls|, i requires 0 <= i < |calls| => OnChain(calls[i], resolver, ledgers[i]))
  }

  function MockVerdicts(m: M.Store, calls: seq<M.Call>): seq<bool>
    decreases |calls|
  {
    if calls == [] then []
    else
      var n := |calls| - 1;
      MockVerdicts(m, calls[..n]) + [M.Step(ML.After(m, calls[..n]), calls[n]).1.None?]
  }

  function ChainVerdicts(c: C.Chain, txs: seq<C.Tx>): seq<bool>
    decreases |txs|
  {
    if txs == [] then []
    else
      var n := |txs| - 1;
      ChainVerdicts(c, txs[..n]) + [C.Exec(CS.After(c, txs[..n]), txs[n]).1 == C.Done]
  }

  lemma LastVerdict(m: M.Store, c: C.Chain, calls: seq<M.Call>, txs: seq<C.Tx>)
    requires |txs| == |calls| > 0
    ensures MockVerdicts(m, calls) == ChainVerdicts(c, txs) <==>
              var n := |calls| - 1;
              && MockVerdicts(m, calls[..n]) == ChainVerdicts(c, txs[..n])
              && (M.Step(ML.After(m, calls[..n]), calls[n]).1.None? <==>
                  C.Exec(CS.After(c, txs[..n]), txs[n]).1 == C.Done)
  {
    var n := |calls| - 1;
    var v, w := MockVerdicts(m, calls), ChainVerdicts(c, txs);
    assert v == MockVerdicts(m, calls[..n]) + [M.Step(ML.After(m, calls[..n]), calls[n]).1.None?];
    assert w == ChainVerdicts(c, txs[..n]) + [C.Exec(CS.After(c, txs[..n]), txs[n]).1 == C.Done];
    VerdictCounts(m, calls[..n], c, txs[..n]);
    assert v[..n] == MockVerdicts(m, calls[..n]) && w[..n] == ChainVerdicts(c, txs[..n]);
    assert v[n] == v[|v| - 1] && w[n] == w[|w| - 1];
  }

  lemma {:induction false} VerdictCounts(m: M.Store, calls: seq<M.Call>, c: C.Chain, txs: seq<C.Tx>)
    requires |txs| == |calls|
    ensures |MockVerdicts(m, calls)| == |ChainVerdicts(c, txs)| == |calls|
    decreases |calls|
  {
    if calls != [] {
      VerdictCounts(m, calls[..|calls| - 1], c, txs[..|calls| - 1]);
    }
  }

  lemma OneFewer(calls: seq<M.Call>, resolver: C.Address, ledgers: seq<nat>)
    requires |ledgers| == |calls| > 0
    ensures var n := |calls| - 1;
            var txs := AllOnChain(calls, resolver, ledgers);
            && AllOnChain(calls[..n], resolver, ledgers[..n]) == txs[..n]
            && txs[n] == OnChain(calls[n], resolver, ledgers[n])
  {
  }

  /** At every call of the run the money guards are the same on both sides. */
  predicate AllPayAlike(m: M.Store, c: C.Chain, calls: seq<M.Call>, txs: seq<C.Tx>)
    requires |txs| == |calls|
    decreases |calls|
  {
    calls == [] ||
    var n := |calls| - 1;
    && AllPayAlike(m, c, calls[..n], txs[..n])
    && PaysAlike(ML.After(m, calls[..n]), CS.After(c, txs[..n]), calls[n])
  }

  /** At no call of the run does one side run out of digits before the other. */
  predicate NoneStrays(m: M.Store, c: C.Chain, calls: seq<M.Call>, txs: seq<C.Tx>)
    requires |txs| == |calls|
    decreases |calls|
  {
    calls == [] ||
    var n := |calls| - 1;
    && NoneStrays(m, c, calls[..n], txs[..n])
    && !Strays(ML.After(m, calls[..n]), CS.After(c, txs[..n]), calls[n])
  }

  /** Without a fee, the next call gets one verdict exactly when it does not stray, and then keeps the relation. */
  lemma LastCallAgrees(m: M.Store, c: C.Chain, book: Book, call: M.Call, now: nat)
    requires Related(m, c, book) && ML.Follows(book, call) && c.config.value.resolver != c.self
    ensures var tx := OnChain(call, c.config.value.resolver, now);
            && ((M.Step(m, call).1.None? <==> C.Exec(c, tx).1 == C.Done) <==> !Strays(m, c, call))
            && (!Strays(m, c, call) ==>
                  && Related(M.Step(m, call).0, C.Exec(c, tx).0, book)
                  && C.Exec(c, tx).0.self == c.self && C.Exec(c, tx).0.config == c.config
                  && Sum(C.Exec(c, tx).0.tokens) == Sum(c.tokens))
  {
    PaysAlikeExactlyWhen(m, c, book, call);
    SameVerdictExactlyWhen(m, c, book, call, now);
    if !Strays(m, c, call) {
      StepAgrees(m, c, book, call, now);
    }
  }

  /**
   * Along every run without a fee: the same calls succeed and the same fail
   * exactly when at no call one side runs out of digits before the other; and
   * then no player can tell the backends apart.
   */
  lemma {:induction false} BackendsAgree(m: M.Store, c: C.Chain, book: Book, calls: seq<M.Call>, ledgers: seq<nat>)
    requires Related(m, c, book) && ML.AllFollow(book, calls) && |ledgers| == |calls|
    requires c.config.value.resolver != c.self
    ensures var txs := AllOnChain(calls, c.config.value.resolver, ledgers);
            && (MockVerdicts(m, calls) == ChainVerdicts(c, txs) <==> NoneStrays(m, c, calls, txs))
            && (NoneStrays(m, c, calls, txs) ==>
                  && Related(ML.After(m, calls), CS.After(c, txs), book)
                  && CS.After(c, txs).config == c.config && CS.After(c, txs).self == c.self
                  && Sum(CS.After(c, txs).tokens) == Sum(c.tokens))
    decreases |calls|
  {
    if calls != [] {
      var n := |calls| - 1;
      var resolver := c.config.value.resolver;
      var txs := AllOnChain(calls, resolver, ledgers);
      BackendsAgree(m, c, book, calls[..n], ledgers[..n]);
      OneFewer(calls, resolver, ledgers);
      LastVerdict(m, c, calls, txs);
      if NoneStrays(m, c, calls[..n], txs[..n]) {
        assert ML.Follows(book, calls[n]);
        LastCallAgrees(ML.After(m, calls[..n]), CS.After(c, txs[..n]), book, calls[n], ledgers[n]);
      }
    }
  }

  /** Every stake a call opens a pot with fits the stake column. */
  ghost predicate OpensFit(calls: seq<M.Call>) {
    forall i :: 0 <= i < |calls| && calls[i].Open? ==> M.Storable(calls[i].ctx.stake)
  }

  lemma LastOpensFit(calls: seq<M.Call>)
    requires calls != []
    ensures var n := |calls| - 1;
            OpensFit(calls) <==> OpensFit(calls[..n]) && (calls[n].Open? ==> M.Storable(calls[n].ctx.stake))
  {
    var n := |calls| - 1;
    assert forall i :: 0 <= i < n ==> calls[..n][i] == calls[i];
  }

  /** A session that exists has a stake its row holds, so a stake that does not fit opens a new one. */
  lemma TooLargeIsNew(m: M.Store, book: Book, call: M.Call)
    requires ML.Inv(m, book) && ML.Follows(book, call)
    ensures OpensTooLarge(m, call) <==> call.Open? && !M.Storable(call.ctx.stake)
  {
    if call.ctx.sessionId in m.wagers {
      assert ML.RowOk(m.wagers[call.ctx.sessionId], call.ctx, m.balances.Keys);
    }
  }

  /**
   * While all the money in the database fits one column and the supply fits
   * i128, only the stakes opened with can part the backends.
   */
  lemma {:induction false} SmallMoneyStraysOnlyAtOpen(
      m: M.Store, c: C.Chain, book: Book, calls: seq<M.Call>, ledgers: seq<nat>)
    requires Related(m, c, book) && ML.AllFollow(book, calls) && |ledgers| == |calls|
    requires c.config.value.resolver != c.self
    requires ML.Total(m) <= M.BALANCE_MAX && CS.SupplyFits(c.tokens)
    ensures NoneStrays(m, c, calls, AllOnChain(calls, c.config.value.resolver, ledgers)) <==> OpensFit(calls)
    decreases |calls|
  {
    if calls != [] {
      var n := |calls| - 1;
      var resolver := c.config.value.resolver;
      var txs := AllOnChain(calls, resolver, ledgers);
      SmallMoneyStraysOnlyAtOpen(m, c, book, calls[..n], ledgers[..n]);
      BackendsAgree(m, c, book, calls[..n], ledgers[..n]);
      OneFewer(calls, resolver, ledgers);
      LastOpensFit(calls);
      if OpensFit(calls[..n]) {
        var mid, mid' := ML.After(m, calls[..n]), CS.After(c, txs[..n]);
        assert ML.Follows(book, calls[n]);
        ML.RunConserves(m, calls[..n], book);
        ML.SmallTotalsNeverOverflow(mid, calls[n], book);
        SupplyLeavesVaultRoom(mid, mid', book, calls[n]);
        TooLargeIsNew(mid, book, calls[n]);
      }
    }
  }

  /** The fees on the pots user u won, less the fees u received, over the whole run. */
  function FeesOf(m: M.Store, cfg: C.Config, calls: seq<M.Call>, u: UserId): int
    decreases |calls|
  {
    if calls == [] then 0
    else
      var n := |calls| - 1;
      FeesOf(m, cfg, calls[..n], u) + FeeShift(ML.After(m, calls[..n]), cfg, calls[n], u)
  }

  /** The next call, with any fee. */
  lemma LastCallDrifts(m: M.Store, c: C.Chain, book: Book, call: M.Call, now: nat)
    requires SameBooks(m, c, book) && ML.Follows(book, call) && c.config.value.resolver != c.self
    ensures var tx := OnChain(call, c.config.value.resolver, now);
            && ((M.Step(m, call).1.None? <==> C.Exec(c, tx).1 == C.Done) <==> PaysAlike(m, c, call))
            && (PaysAlike(m, c, call) ==>
                  var c' := C.Exec(c, tx).0;
                  && SameBooks(M.Step(m, call).0, c', book) && c'.self == c.self && c'.config == c.config
                  && forall u :: u != c.self ==>
                       Ahead(M.Step(m, call).0, c', u) == Ahead(m, c, u) + FeeShift(m, c.config.value, call, u))
  {
    SameVerdictExactlyWhen(m, c, book, call, now);
    if PaysAlike(m, c, call) {
      StepDrifts(m, c, book, call, now);
    }
  }

  /**
   * With any fee, over every run: the verdicts agree exactly when at each call
   * the money guards do; then the pots stay alike, and a player is better off in
   * the database by exactly the fees on the pots that player won, less the fees
   * that player received.
   */
  lemma {:induction false} FeesExplainTheDifference(
      m: M.Store, c: C.Chain, book: Book, calls: seq<M.Call>, ledgers: seq<nat>)
    requires SameBooks(m, c, book) && ML.AllFollow(book, calls) && |ledgers| == |calls|
    requires c.config.value.resolver != c.self
    ensures var txs := AllOnChain(calls, c.config.value.resolver, ledgers);
            && (MockVerdicts(m, calls) == ChainVerdicts(c, txs) <==> AllPayAlike(m, c, calls, txs))
            && (AllPayAlike(m, c, calls, txs) ==>
                  var end := CS.After(c, txs);
                  && SameBooks(ML.After(m, calls), end, book) && end.config == c.config && end.self == c.self
                  && forall u :: u != c.self ==>
                       Ahead(ML.After(m, calls), end, u) == Ahead(m, c, u) + FeesOf(m, c.config.value, calls, u))
    decreases |calls|
  {
    if calls != [] {
      var n := |calls| - 1;
      var resolver := c.config.value.resolver;
      var txs := AllOnChain(calls, resolver, ledgers);
      FeesExplainTheDifference(m, c, book, calls[..n], ledgers[..n]);
      OneFewer(calls, resolver, ledgers);
      LastVerdict(m, c, calls, txs);
      if AllPayAlike(m, c, calls[..n], txs[..n]) {
        assert ML.Follows(book, calls[n]);
        LastCallDrifts(ML.After(m, calls[..n]), CS.After(c, txs[..n]), book, calls[n], ledgers[n]);
      }
    }
  }

  // ----- One release with a fee -----

  /** A pot both players staked in is small enough for any fee within the cap. */
  lemma FeeProductFits(m: M.Store, c: C.Chain, book: Book, call: M.Call)
    requires SameBooks(m, c, book) && ML.Follows(book, call) && call.Release? && ML.Allowed(m, call)
    ensures 0 < call.ctx.stake <= M.BALANCE_MAX && InI128(2 * call.ctx.stake * c.config.value.feeBps)
  {
    assert ML.RowOk(m.wagers[call.ctx.sessionId], call.ctx, m.balances.Keys);
    CS.FeeBounds(call.ctx.stake, c.config.value.feeBps);
  }

  /** With equal balances an allowed release always goes through on chain, whatever the fee. */
  lemma ReleaseGoesThrough(m: M.Store, c: C.Chain, book: Book, call: M.Call)
    requires RelatedUpToFee(m, c, book) && ML.Follows(book, call) && call.Release? && ML.Allowed(m, call)
    ensures C.Exec(c, OnChain(call, c.config.value.resolver, 0)).1 == C.Done
  {
    var sid, cfg := call.ctx.sessionId, c.config.value;
    assert SamePot(m.wagers[sid], c.pots[sid]) && ML.RowOk(m.wagers[sid], call.ctx, m.balances.Keys);
    FeeProductFits(m, c, book, call);
    CS.FeeBounds(call.ctx.stake, cfg.feeBps);
    assert forall u :: u != c.self ==> C.BalanceOf(c.tokens, u) == ML.Bal(m, u) <= M.BALANCE_MAX;
    ChainSucceedsExactlyWhen(m, c, book, call, 0);
  }

  /**
   * With a fee, a release is worth the same to the winner in both modes exactly
   * when the winner's column can take the pot, and the fee rounds down to nothing
   * or goes back to the winner.
   */
  lemma WinnerPaidTheSameExactlyWhen(m: M.Store, c: C.Chain, book: Book, call: M.Call)
    requires RelatedUpToFee(m, c, book) && ML.Follows(book, call) && call.Release? && ML.Allowed(m, call)
    ensures var tx := OnChain(call, c.config.value.resolver, 0);
            && C.Exec(c, tx).1 == C.Done
            && (ML.Bal(M.Step(m, call).0, call.winnerId) == C.BalanceOf(C.Exec(c, tx).0.tokens, call.winnerId)
                <==> !ML.CreditTooLarge(m, call)
                     && (2 * call.ctx.stake * c.config.value.feeBps < C.BPS_DENOMINATOR
                         || c.config.value.feeReceiver == Some(call.winnerId)))
  {
    var sid := call.ctx.sessionId;
    FeeProductFits(m, c, book, call);
    ReleaseGoesThrough(m, c, book, call);
    ML.CallEffect(m, call, book);
    ML.SucceedsExactlyWhen(m, call, book);
    assert SamePot(m.wagers[sid], c.pots[sid]);
    CS.ResolvePaysTwoStakes(c, sid, call.winnerId, {c.config.value.resolver});
    assert ML.Bal(m, call.winnerId) == C.BalanceOf(c.tokens, call.winnerId);
    assert CS.Fee(call.ctx.stake, c.config.value.feeBps) == 0
      <==> 2 * call.ctx.stake * c.config.value.feeBps < C.BPS_DENOMINATOR;
  }

  /** At the highest fee, a pot of 100 each is worth 200 to the winner in the database and 180 on chain. */
  lemma FeeLeavesWinnerShort()
    ensures var row := M.Wager("a", "b", 100, M.OPEN, Some("h1"), Some("h2"));
            var m := M.Store(map["a" := 0, "b" := 0], map["s" := row]);
            var pot := C.Pot("a", "b", 100, true, true, C.Funded, 0);
            var cfg := C.Config("admin", "token", "resolver", 1000, Some("fees"));
            var c := C.Chain("self", Some(cfg), Some(2), map["s" := pot], map["self" := 200]);
            var call := M.Release("a", EscrowContext("s", "a", "b", 100));
            && ML.Bal(M.Step(m, call).0, "a") == 200
            && C.BalanceOf(C.Exec(c, OnChain(call, "resolver", 0)).0.tokens, "a") == 180
  {
    assert C.FeeOn(200, 1000) == Some(20);
  }

  /** Two freshly created backends holding the same balances start out related. */
  lemma FreshBackendsAreRelated(
      users: map<UserId, int>, self: C.Address, admin: C.Address, token: C.Address, resolver: C.Address, book: Book)
    requires ML.ValidBook(book) && (forall sid :: sid in book ==> !M.IsPlayer(self, book[sid]))
    requires self !in users && forall u :: u in users ==> 0 <= users[u] <= M.BALANCE_MAX
    ensures Related(M.Store(users, map[]), C.Deployed(self, admin, token, resolver, users), book)
  {
    CS.DeployedIsGood(self, admin, token, resolver, users);
  }
}
