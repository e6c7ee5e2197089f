/** Solvency, fees and finality of the escrow contract, over every run of transactions. */
module EscrowSafety {
  import opened Prelude
  import opened MapSum
  import opened EscrowTypes
  import opened EscrowContract

  // ----- The invariant -----

  function Owed(pot: Pot): int {
    if pot.status == Resolved || pot.status == Refunded then 0
    else (if pot.fundedA then pot.stake else 0) + (if pot.fundedB then pot.stake else 0)
  }

  function OwedBySession(pots: map<SessionId, Pot>): map<SessionId, int> {
    map sid | sid in pots :: Owed(pots[sid])
  }

  /** A fee within the cap, and somebody to receive it. */
  predicate FeeOk(c: Config) {
    c.feeBps <= MAX_FEE_BPS && (c.feeBps > 0 ==> c.feeReceiver.Some?)
  }

  predicate PotOk(pot: Pot, self: Address) {
    && 0 < pot.stake && pot.playerA != pot.playerB
    && (pot.fundedA ==> pot.playerA != self) && (pot.fundedB ==> pot.playerB != self)
    && (pot.status == Open ==> !(pot.fundedA && pot.fundedB))
    && (pot.status == Funded ==> pot.fundedA && pot.fundedB)
  }

  ghost predicate NonNegative(t: Ledger) {
    forall a :: a in t ==> 0 <= t[a]
  }

  /** Every balance is a non-negative i128. Nothing is said about their sum. */
  ghost predicate LedgerOk(t: Ledger) {
    NonNegative(t) && forall a :: a in t ==> t[a] <= I128_MAX
  }

  /** The whole supply fits i128. */
  ghost predicate SupplyFits(t: Ledger) {
    Sum(t) <= I128_MAX
  }

  /** What the contract holds beyond the live stakes. */
  ghost function Surplus(s: Chain): int {
    BalanceOf(s.tokens, s.self) - Sum(OwedBySession(s.pots))
  }

  ghost predicate Inv(s: Chain) {
    && s.config.Some? && FeeOk(s.config.value)
    && LedgerOk(s.tokens)
    && (forall sid :: sid in s.pots ==> PotOk(s.pots[sid], s.self))
    && 0 <= Surplus(s)
  }

  lemma DeployedIsGood(self: Address, admin: Address, token: Address, resolver: Address, tokens: Ledger)
    requires LedgerOk(tokens)
    ensures Inv(Deployed(self, admin, token, resolver, tokens))
    ensures Surplus(Deployed(self, admin, token, resolver, tokens)) == BalanceOf(tokens, self)
  {
    assert OwedBySession(map[]) == map[];
  }

  // ----- The token ledger -----

  function Shift(a: Address, from: Address, to: Address, amount: int): int {
    (if a == to then amount else 0) - (if a == from then amount else 0)
  }

  lemma SetBalance(t: Ledger, a: Address, v: nat)
    requires NonNegative(t)
    ensures NonNegative(t[a := v])
    ensures Sum(t[a := v]) == Sum(t) - BalanceOf(t, a) + v
  {
    SumUpdate(t, a, v);
  }

  /** The receiver's balance stays within i128. */
  predicate TakesIn(t: Ledger, from: Address, to: Address, amount: int) {
    BalanceOf(t, to) + (if to == from then 0 else amount) <= I128_MAX
  }

  lemma MovedShifts(t: Ledger, from: Address, to: Address, amount: nat)
    requires LedgerOk(t) && Moved(t, from, to, amount).Some?
    ensures forall a :: BalanceOf(Moved(t, from, to, amount).value, a) == BalanceOf(t, a) + Shift(a, from, to, amount)
    ensures LedgerOk(Moved(t, from, to, amount).value)
  {
  }

  lemma MovedCreatesNothing(t: Ledger, from: Address, to: Address, amount: nat)
    requires LedgerOk(t) && Moved(t, from, to, amount).Some?
    ensures Sum(Moved(t, from, to, amount).value) == Sum(t)
  {
    var debited := t[from := BalanceOf(t, from) - amount];
    SetBalance(t, from, BalanceOf(t, from) - amount);
    SetBalance(debited, to, BalanceOf(debited, to) + amount);
  }

  /** A transfer is refused exactly for want of funds or of room, and it creates nothing. */
  lemma MovedEffect(t: Ledger, from: Address, to: Address, amount: nat)
    requires LedgerOk(t)
    ensures Moved(t, from, to, amount).Some? <==> amount <= BalanceOf(t, from) && TakesIn(t, from, to, amount)
    ensures Moved(t, from, to, amount).Some? ==>
              var t' := Moved(t, from, to, amount).value;
              && LedgerOk(t') && Sum(t') == Sum(t)
              && forall a :: BalanceOf(t', a) == BalanceOf(t, a) + Shift(a, from, to, amount)
  {
    if Moved(t, from, to, amount).Some? {
      MovedShifts(t, from, to, amount);
      MovedCreatesNothing(t, from, to, amount);
    }
  }

  /** While the supply fits i128 there is always room for what somebody else holds. */
  lemma SupplyLeavesRoom(t: Ledger, from: Address, to: Address, amount: nat)
    requires LedgerOk(t) && SupplyFits(t) && amount <= BalanceOf(t, from)
    ensures TakesIn(t, from, to, amount)
  {
    if to != from {
      TwoBalances(t, from, to);
    }
  }

  lemma TwoBalances(t: Ledger, a: Address, b: Address)
    requires NonNegative(t) && a != b
    ensures BalanceOf(t, a) + BalanceOf(t, b) <= Sum(t)
  {
    SetBalance(t, a, 0);
    SumBounds(t[a := 0]);
  }

  // ----- Pots -----

  lemma OwedUpdate(pots: map<SessionId, Pot>, sid: SessionId, pot: Pot)
    ensures Sum(OwedBySession(pots[sid := pot]))
         == Sum(OwedBySession(pots)) - (if sid in pots then Owed(pots[sid]) else 0) + Owed(pot)
  {
    assert OwedBySession(pots[sid := pot]) == OwedBySession(pots)[sid := Owed(pot)];
    SumUpdate(OwedBySession(pots), sid, Owed(pot));
  }

  /** The contract can always cover any one live pot. */
  lemma CanCover(s: Chain, sid: SessionId)
    requires Inv(s) && sid in s.pots
    ensures 0 <= Owed(s.pots[sid]) <= BalanceOf(s.tokens, s.self) <= I128_MAX
  {
    SumBounds(OwedBySession(s.pots));
    assert OwedBySession(s.pots)[sid] == Owed(s.pots[sid]);
  }

  // ----- resolve -----

  function Fee(stake: nat, bps: nat): nat {
    2 * stake * bps / BPS_DENOMINATOR
  }

  lemma FeeBounds(stake: nat, bps: nat)
    requires bps <= MAX_FEE_BPS
    ensures 10 * Fee(stake, bps) <= 2 * stake
    ensures 2 * stake - Fee(stake, bps) >= stake
    ensures stake <= I128_MAX / 2000 ==> InI128(2 * stake * bps)
  {
    assert 2 * stake * bps <= 2 * stake * MAX_FEE_BPS;
  }

  predicate MayResolve(s: Chain, sid: SessionId, winner: Address, signers: set<Address>) {
    && s.config.Some? && s.config.value.resolver in signers
    && sid in s.pots && s.pots[sid].status == Funded
    && (winner == s.pots[sid].playerA || winner == s.pots[sid].playerB)
  }

  /** The guards of the arithmetic and of the transfers: nothing leaves i128. */
  predicate ResolveFits(s: Chain, sid: SessionId, winner: Address)
    requires s.config.Some? && sid in s.pots && s.pots[sid].stake >= 0
  {
    var stake, cfg := s.pots[sid].stake, s.config.value;
    var fee := Fee(stake, cfg.feeBps);
    && InI128(2 * stake * cfg.feeBps)
    && (fee > 0 && cfg.feeReceiver.Some? ==> TakesIn(s.tokens, s.self, cfg.feeReceiver.value, fee))
    && TakesIn(s.tokens, s.self, winner, 2 * stake - if cfg.feeReceiver == Some(winner) then 0 else fee)
  }

  /**
   * A permitted resolve goes through exactly when nothing in it leaves i128. It
   * takes exactly two stakes out of the contract: the fee, at most a tenth, to the
   * receiver, the rest, at least the winner's own stake, to a player of that pot.
   */
  lemma ResolvePaysTwoStakes(s: Chain, sid: SessionId, winner: Address, signers: set<Address>)
    requires Inv(s)
    ensures var (s', r) := Exec(s, Tx(Call.Resolve(sid, winner), signers));
            && (r == Done <==> MayResolve(s, sid, winner, signers)
                               && s.pots[sid].stake >= 0 && ResolveFits(s, sid, winner))
            && (r == Done ==>
                  var stake := s.pots[sid].stake;
                  var fee := Fee(stake, s.config.value.feeBps);
                  && 10 * fee <= 2 * stake && 2 * stake - fee >= stake
                  && LedgerOk(s'.tokens) && Sum(s'.tokens) == Sum(s.tokens)
                  && forall a :: BalanceOf(s'.tokens, a)
                       == BalanceOf(s.tokens, a) + Shift(a, s.self, winner, 2 * stake - fee)
                          + (if s.config.value.feeReceiver.Some?
                             then Shift(a, s.self, s.config.value.feeReceiver.value, fee) else 0))
  {
    if MayResolve(s, sid, winner, signers) {
      assert PotOk(s.pots[sid], s.self);
      CanCover(s, sid);
      var stake, cfg := s.pots[sid].stake, s.config.value;
      FeeOnIsFee(stake, cfg.feeBps);
      FeeBounds(stake, cfg.feeBps);
      if InI128(2 * stake * cfg.feeBps) {
        assert cfg.feeBps == 0 ==> Fee(stake, cfg.feeBps) == 0;
        PayoutEffect(s, stake, winner, Fee(stake, cfg.feeBps));
      }
    }
  }

  /** While the supply fits i128, only the fee product can stop a permitted resolve. */
  lemma SupplyLetsResolve(s: Chain, sid: SessionId, winner: Address, signers: set<Address>)
    requires Inv(s) && SupplyFits(s.tokens) && MayResolve(s, sid, winner, signers)
    ensures s.pots[sid].stake >= 0
    ensures ResolveFits(s, sid, winner) <==> InI128(2 * s.pots[sid].stake * s.config.value.feeBps)
  {
    assert PotOk(s.pots[sid], s.self);
    CanCover(s, sid);
    var stake, cfg := s.pots[sid].stake, s.config.value;
    var fee := Fee(stake, cfg.feeBps);
    FeeBounds(stake, cfg.feeBps);
    if cfg.feeReceiver.Some? {
      SupplyLeavesRoom(s.tokens, s.self, cfg.feeReceiver.value, fee);
    }
    SupplyLeavesRoom(s.tokens, s.self, winner, 2 * stake - if cfg.feeReceiver == Some(winner) then 0 else fee);
  }

  lemma FeeOnIsFee(stake: nat, bps: nat)
    ensures FeeOn(stake * 2, bps) == if InI128(2 * stake * bps) then Some(Fee(stake, bps)) else None
  {
    assert stake * 2 * bps == 2 * stake * bps;
  }

  /** Two transfers out of an account that can cover both, the first skipped when it is empty. */
  lemma TwoTransfers(t: Ledger, from: Address, first: Option<Address>, x: nat, second: Address, y: nat)
    requires LedgerOk(t) && x + y <= BalanceOf(t, from) && (x > 0 ==> first.Some?) && second != from
    ensures var mid := if x > 0 && first.Some? then Moved(t, from, first.value, x) else Some(t);
            && (mid.Some? && Moved(mid.value, from, second, y).Some? <==>
                  && (x > 0 && first.Some? ==> TakesIn(t, from, first.value, x))
                  && TakesIn(t, from, second, y + if first == Some(second) then x else 0))
            && (mid.Some? && Moved(mid.value, from, second, y).Some? ==>
                  var t' := Moved(mid.value, from, second, y).value;
                  && LedgerOk(t') && Sum(t') == Sum(t)
                  && forall a :: BalanceOf(t', a) == BalanceOf(t, a) + Shift(a, from, second, y)
                                                     + if first.Some? then Shift(a, from, first.value, x) else 0)
  {
    if x > 0 {
      MovedEffect(t, from, first.value, x);
      if Moved(t, from, first.value, x).Some? {
        MovedEffect(Moved(t, from, first.value, x).value, from, second, y);
      }
    } else {
      MovedEffect(t, from, second, y);
    }
  }

  /** The transfers of a payout the contract can cover. */
  lemma PayoutEffect(s: Chain, stake: nat, winner: Address, fee: nat)
    requires s.config.Some? && LedgerOk(s.tokens) && 2 * stake <= BalanceOf(s.tokens, s.self) && winner != s.self
    requires FeeOn(stake * 2, s.config.value.feeBps) == Some(fee) && fee <= 2 * stake
    requires fee > 0 ==> s.config.value.feeReceiver.Some?
    ensures var receiver := s.config.value.feeReceiver;
            PaidOut(s, stake, winner).Some? <==>
              && (fee > 0 && receiver.Some? ==> TakesIn(s.tokens, s.self, receiver.value, fee))
              && TakesIn(s.tokens, s.self, winner, 2 * stake - if receiver == Some(winner) then 0 else fee)
    ensures PaidOut(s, stake, winner).Some? ==>
              var t := PaidOut(s, stake, winner).value;
              && LedgerOk(t) && Sum(t) == Sum(s.tokens)
              && forall a :: BalanceOf(t, a)
                   == BalanceOf(s.tokens, a) + Shift(a, s.self, winner, 2 * stake - fee)
                      + (if s.config.value.feeReceiver.Some?
                         then Shift(a, s.self, s.config.value.feeReceiver.value, fee) else 0)
  {
    TwoTransfers(s.tokens, s.self, s.config.value.feeReceiver, fee, winner, 2 * stake - fee);
  }

  // ----- refund and stake -----

  function Returns(pot: Pot, self: Address, a: Address): int {
    (if pot.fundedA then Shift(a, self, pot.playerA, pot.stake) else 0)
    + (if pot.fundedB then Shift(a, self, pot.playerB, pot.stake) else 0)
  }

  /** A player who staked has room for the stake. */
  predicate RefundFits(s: Chain, sid: SessionId)
    requires sid in s.pots
  {
    var pot := s.pots[sid];
    && (pot.fundedA ==> TakesIn(s.tokens, s.self, pot.playerA, pot.stake))
    && (pot.fundedB ==> TakesIn(s.tokens, s.self, pot.playerB, pot.stake))
  }

  predicate MayRefund(s: Chain, sid: SessionId, signers: set<Address>) {
    && s.config.Some? && s.config.value.resolver in signers && sid in s.pots
    && (s.pots[sid].status == Open || s.pots[sid].status == Funded)
  }

  /**
   * A refund of a live pot never falls short, whatever the fee: it goes through
   * exactly when no player's balance leaves i128, and returns each stake to its
   * own player.
   */
  lemma RefundReturnsStakes(s: Chain, sid: SessionId, signers: set<Address>)
    requires Inv(s)
    ensures var (s', r) := Exec(s, Tx(Call.Refund(sid), signers));
            && (r == Done <==> MayRefund(s, sid, signers) && RefundFits(s, sid))
            && (r == Done ==>
                  && LedgerOk(s'.tokens) && Sum(s'.tokens) == Sum(s.tokens)
                  && forall a :: BalanceOf(s'.tokens, a)
                       == BalanceOf(s.tokens, a) + Returns(s.pots[sid], s.self, a))
  {
    if MayRefund(s, sid, signers) {
      assert PotOk(s.pots[sid], s.self);
      CanCover(s, sid);
      ReturnedEffect(s, s.pots[sid]);
    }
  }

  lemma ReturnedEffect(s: Chain, pot: Pot)
    requires LedgerOk(s.tokens) && PotOk(pot, s.self) && (pot.status == Open || pot.status == Funded)
    requires Owed(pot) <= BalanceOf(s.tokens, s.self)
    ensures Returned(s, pot).Some? <==>
              && (pot.fundedA ==> TakesIn(s.tokens, s.self, pot.playerA, pot.stake))
              && (pot.fundedB ==> TakesIn(s.tokens, s.self, pot.playerB, pot.stake))
    ensures Returned(s, pot).Some? ==>
              var t := Returned(s, pot).value;
              && LedgerOk(t) && Sum(t) == Sum(s.tokens)
              && forall a :: BalanceOf(t, a) == BalanceOf(s.tokens, a) + Returns(pot, s.self, a)
  {
    if pot.fundedA {
      MovedEffect(s.tokens, s.self, pot.playerA, pot.stake);
      var first := Moved(s.tokens, s.self, pot.playerA, pot.stake);
      if first.Some? && pot.fundedB {
        MovedEffect(first.value, s.self, pot.playerB, pot.stake);
      }
    } else if pot.fundedB {
      MovedEffect(s.tokens, s.self, pot.playerB, pot.stake);
    }
  }

  /** While the supply fits i128, a refund the resolver signs always goes through. */
  lemma SupplyLetsRefund(s: Chain, sid: SessionId, signers: set<Address>)
    requires Inv(s) && SupplyFits(s.tokens) && MayRefund(s, sid, signers)
    ensures RefundFits(s, sid)
  {
    var pot := s.pots[sid];
    assert PotOk(pot, s.self);
    CanCover(s, sid);
    if pot.fundedA { SupplyLeavesRoom(s.tokens, s.self, pot.playerA, pot.stake); }
    if pot.fundedB { SupplyLeavesRoom(s.tokens, s.self, pot.playerB, pot.stake); }
  }

  predicate MayStake(s: Chain, sid: SessionId, player: Address, signers: set<Address>) {
    && s.config.Some? && player in signers && sid in s.pots
    && var pot := s.pots[sid];
    && (pot.status == Open || pot.status == Funded)
    && ((player == pot.playerA && !pot.fundedA) || (player == pot.playerB && !pot.fundedB))
    && pot.stake <= BalanceOf(s.tokens, player) && TakesIn(s.tokens, player, s.self, pot.stake)
  }

  lemma StakeEffect(s: Chain, sid: SessionId, player: Address, signers: set<Address>)
    requires Inv(s)
    ensures var (s', r) := Exec(s, Tx(Call.Stake(sid, player), signers));
            && (r == Done <==> MayStake(s, sid, player, signers))
            && (r == Done ==>
                  && LedgerOk(s'.tokens) && Sum(s'.tokens) == Sum(s.tokens)
                  && forall a :: BalanceOf(s'.tokens, a)
                       == BalanceOf(s.tokens, a) + Shift(a, player, s.self, s.pots[sid].stake))
  {
    if sid in s.pots {
      assert PotOk(s.pots[sid], s.self);
      MovedEffect(s.tokens, player, s.self, s.pots[sid].stake);
    }
  }

  // ----- Every step, every run -----

  /** Tokens a transaction leaves in the contract beyond any stake: outside transfers and self-directed fees. */
  function Gift(s: Chain, tx: Tx): int {
    if Exec(s, tx).1 != Done then 0
    else
      match tx.call
      case Transfer(_, to, amount) => if to == s.self then amount else 0
      case Resolve(sid, _) =>
        if s.config.Some? && s.config.value.feeReceiver == Some(s.self) && sid in s.pots && s.pots[sid].stake >= 0
        then Fee(s.pots[sid].stake, s.config.value.feeBps) else 0
      case _ => 0
  }

  /** The step keeps the invariant, the supply, and the balance sheet up to gifts. */
  ghost predicate Solvent(s: Chain, tx: Tx) {
    var s' := Exec(s, tx).0;
    && Inv(s') && s'.self == s.self
    && Sum(s'.tokens) == Sum(s.tokens)
    && 0 <= Gift(s, tx) && Surplus(s') == Surplus(s) + Gift(s, tx)
  }

  /** Anything but success leaves the chain exactly as it was. */
  lemma RefusedChangesNothing(s: Chain, tx: Tx)
    requires Exec(s, tx).1 != Done
    ensures Exec(s, tx).0 == s
  {
  }

  lemma OpenIsSolvent(s: Chain, tx: Tx)
    requires Inv(s) && tx.call.OpenPot? && Exec(s, tx).1 == Done
    ensures Solvent(s, tx)
  {
    OwedUpdate(s.pots, tx.call.sid, Exec(s, tx).0.pots[tx.call.sid]);
  }

  lemma StakeIsSolvent(s: Chain, tx: Tx)
    requires Inv(s) && s.self !in tx.signers && tx.call.Stake? && Exec(s, tx).1 == Done
    ensures Solvent(s, tx)
  {
    var sid := tx.call.sid;
    var s' := Exec(s, tx).0;
    StakeEffect(s, sid, tx.call.player, tx.signers);
    OwedUpdate(s.pots, sid, s'.pots[sid]);
    assert PotOk(s.pots[sid], s.self);
    assert BalanceOf(s'.tokens, s.self) == BalanceOf(s.tokens, s.self) + s.pots[sid].stake;
  }

  lemma ResolveIsSolvent(s: Chain, tx: Tx)
    requires Inv(s) && tx.call.Resolve? && Exec(s, tx).1 == Done
    ensures Solvent(s, tx)
  {
    var sid := tx.call.sid;
    var s' := Exec(s, tx).0;
    ResolvePaysTwoStakes(s, sid, tx.call.winner, tx.signers);
    OwedUpdate(s.pots, sid, s'.pots[sid]);
    var pot, cfg := s.pots[sid], s.config.value;
    assert PotOk(pot, s.self);
    var fee := Fee(pot.stake, cfg.feeBps);
    if cfg.feeReceiver.None? {
      assert cfg.feeBps == 0;
      assert fee == 0;
    }
    assert BalanceOf(s'.tokens, s.self) == BalanceOf(s.tokens, s.self) - 2 * pot.stake
           + if cfg.feeReceiver == Some(s.self) then fee else 0;
  }

  lemma RefundIsSolvent(s: Chain, tx: Tx)
    requires Inv(s) && tx.call.Refund? && Exec(s, tx).1 == Done
    ensures Solvent(s, tx)
  {
    var sid := tx.call.sid;
    var s' := Exec(s, tx).0;
    RefundReturnsStakes(s, sid, tx.signers);
    OwedUpdate(s.pots, sid, s'.pots[sid]);
    assert PotOk(s.pots[sid], s.self);
    assert BalanceOf(s'.tokens, s.self) == BalanceOf(s.tokens, s.self) - Owed(s.pots[sid]);
  }

  lemma TransferIsSolvent(s: Chain, tx: Tx)
    requires Inv(s) && s.self !in tx.signers && tx.call.Transfer? && Exec(s, tx).1 == Done
    ensures Solvent(s, tx)
  {
    MovedEffect(s.tokens, tx.call.from, tx.call.to, tx.call.amount);
  }

  /** Each transaction not signed by the contract itself keeps the invariant, the supply, and exact solvency. */
  lemma StepIsSolvent(s: Chain, tx: Tx)
    requires Inv(s) && s.self !in tx.signers
    ensures Solvent(s, tx)
  {
    if Exec(s, tx).1 != Done {
      RefusedChangesNothing(s, tx);
    } else {
      match tx.call {
        case OpenPot(_, _, _, _, _) => OpenIsSolvent(s, tx);
        case Stake(_, _) => StakeIsSolvent(s, tx);
        case Resolve(_, _) => ResolveIsSolvent(s, tx);
        case Refund(_) => RefundIsSolvent(s, tx);
        case Transfer(_, _, _) => TransferIsSolvent(s, tx);
        case SetAdmin(_) =>
        case SetFee(_, _) =>
        case Migrate =>
      }
    }
  }

  function After(s: Chain, txs: seq<Tx>): Chain
    decreases |txs|
  {
    if txs == [] then s else Exec(After(s, txs[..|txs| - 1]), txs[|txs| - 1]).0
  }

  function Gifts(s: Chain, txs: seq<Tx>): int
    decreases |txs|
  {
    if txs == [] then 0
    else Gifts(s, txs[..|txs| - 1]) + Gift(After(s, txs[..|txs| - 1]), txs[|txs| - 1])
  }

  /** The contract cannot sign for itself: it makes no calls in its own name. */
  ghost predicate OutsideSigned(self: Address, txs: seq<Tx>) {
    forall i :: 0 <= i < |txs| ==> self !in txs[i].signers
  }

  /**
   * After any run the contract's balance is the live stakes plus what was in it
   * to begin with plus what was given to it, and the token supply is unchanged.
   */
  lemma {:induction false} EveryRunIsSolvent(s: Chain, txs: seq<Tx>)
    requires Inv(s) && OutsideSigned(s.self, txs)
    ensures var end := After(s, txs);
            && Inv(end) && end.self == s.self && Sum(end.tokens) == Sum(s.tokens)
            && 0 <= Gifts(s, txs)
            && BalanceOf(end.tokens, s.self) == Sum(OwedBySession(end.pots)) + Surplus(s) + Gifts(s, txs)
    decreases |txs|
  {
    if txs != [] {
      var before := txs[..|txs| - 1];
      EveryRunIsSolvent(s, before);
      StepIsSolvent(After(s, before), txs[|txs| - 1]);
    }
  }

  predicate Settled(s: Chain, sid: SessionId) {
    sid in s.pots && (s.pots[sid].status == Resolved || s.pots[sid].status == Refunded)
  }

  predicate Concerns(c: Call, sid: SessionId) {
    match c
    case OpenPot(id, _, _, _, _) => id == sid
    case Stake(id, _) => id == sid
    case Resolve(id, _) => id == sid
    case Refund(id) => id == sid
    case _ => false
  }

  lemma SettledStep(s: Chain, tx: Tx, sid: SessionId)
    requires Settled(s, sid)
    ensures sid in Exec(s, tx).0.pots && Exec(s, tx).0.pots[sid] == s.pots[sid]
    ensures Concerns(tx.call, sid) ==> Exec(s, tx).1 != Done && Exec(s, tx).0.tokens == s.tokens
  {
  }

  /** A settled pot is final: its record never changes, and no call on it moves a token or succeeds. */
  lemma {:induction false} SettledPotsAreFinal(s: Chain, txs: seq<Tx>, sid: SessionId)
    requires Settled(s, sid)
    ensures sid in After(s, txs).pots && After(s, txs).pots[sid] == s.pots[sid]
    ensures forall i :: 0 <= i < |txs| && Concerns(txs[i].call, sid) ==>
              Exec(After(s, txs[..i]), txs[i]).1 != Done
              && After(s, txs[..i + 1]).tokens == After(s, txs[..i]).tokens
    decreases |txs|
  {
    forall i | 0 <= i < |txs| && Concerns(txs[i].call, sid)
      ensures Exec(After(s, txs[..i]), txs[i]).1 != Done
      ensures After(s, txs[..i + 1]).tokens == After(s, txs[..i]).tokens
    {
      SettledPotsAreFinal(s, txs[..i], sid);
      SettledStep(After(s, txs[..i]), txs[i], sid);
      assert txs[..i + 1][..i] == txs[..i];
    }
    if txs != [] {
      var n := |txs| - 1;
      SettledPotsAreFinal(s, txs[..n], sid);
      SettledStep(After(s, txs[..n]), txs[n], sid);
    }
  }

  /** Once the stored version is current, migrate changes nothing; before that it clears the fee. */
  lemma MigrateRunsOnce(s: Chain, signers: set<Address>)
    requires s.config.Some? && s.config.value.admin in signers
    ensures var once := Exec(s, Tx(Call.Migrate, signers)).0;
            && Exec(once, Tx(Call.Migrate, signers)) == (once, Done)
            && (once == s <==> (s.version.Some? && s.version.value >= CURRENT_VERSION))
            && (once != s ==> once.config.value.feeBps == 0 && FeeOk(once.config.value))
  {
  }

  /** Setting a zero fee clears the receiver exactly when the caller names none: the argument is stored as it is. */
  lemma ZeroFeeClearsReceiverExactlyWhen(s: Chain, receiver: Option<Address>, signers: set<Address>)
    requires s.config.Some? && s.config.value.admin in signers
    ensures var (s', r) := Exec(s, Tx(Call.SetFee(0, receiver), signers));
            r == Done && (s'.config.value.feeReceiver == None <==> receiver == None)
  {
  }
}
