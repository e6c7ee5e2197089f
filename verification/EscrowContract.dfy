/**
 * The on-chain escrow contract and the token ledger it moves funds on. `Exec`
 * specifies one transaction; the class is the contract, proved against `Exec`.
 */
module EscrowContract {
  import opened Prelude
  import opened EscrowTypes

  type Address = string
  type Ledger = map<Address, int>

  const CURRENT_VERSION: nat := 2
  const MAX_FEE_BPS: nat := 1000
  const BPS_DENOMINATOR: nat := 10000
  const CLAIM_WINDOW_LEDGERS: nat := 120960

  datatype PotStatus = Open | Funded | Resolved | Refunded

  datatype Config = Config(
    admin: Address, token: Address, resolver: Address, feeBps: nat, feeReceiver: Option<Address>)

  datatype Pot = Pot(
    playerA: Address, playerB: Address, stake: int,
    fundedA: bool, fundedB: bool, status: PotStatus, deadlineLedger: nat)

  datatype Error =
    | NotInitialized | PotAlreadyExists | PotNotFound | PotNotOpen | PotNotFunded | AlreadyStaked
    | NotAPlayer | InvalidStake | SamePlayer | FeeTooHigh | FeeReceiverRequired

  /** A trap (missing signature, short balance, i128 overflow) aborts the transaction. */
  datatype Response = Done | Rejected(error: Error) | Trapped

  datatype Chain = Chain(
    self: Address, config: Option<Config>, version: Option<nat>,
    pots: map<SessionId, Pot>, tokens: Ledger)

  datatype Call =
    | SetAdmin(newAdmin: Address)
    | SetFee(feeBps: nat, receiver: Option<Address>)
    | Migrate
    | OpenPot(sid: SessionId, playerA: Address, playerB: Address, stake: int, ledgerNow: nat)
    | Stake(sid: SessionId, player: Address)
    | Resolve(sid: SessionId, winner: Address)
    | Refund(sid: SessionId)
    | Transfer(from: Address, to: Address, amount: int)  // token traffic outside the contract

  datatype Tx = Tx(call: Call, signers: set<Address>)

  // ----- The token -----

  function BalanceOf(t: Ledger, a: Address): int {
    if a in t then t[a] else 0
  }

  /** Moves tokens, or refuses: negative amount, short sender, or a receiver past i128. */
  function Moved(t: Ledger, from: Address, to: Address, amount: int): Option<Ledger> {
    if amount < 0 || BalanceOf(t, from) < amount then None
    else
      var debited := t[from := BalanceOf(t, from) - amount];
      if BalanceOf(debited, to) + amount > I128_MAX then None
      else Some(debited[to := BalanceOf(debited, to) + amount])
  }

  /** Rust's integer division rounds toward zero. */
  function TruncDiv(n: int, d: nat): int
    requires d > 0
  {
    if n >= 0 then n / d else -(-n / d)
  }

  // ----- One transaction -----

  function Exec(s: Chain, tx: Tx): (Chain, Response) {
    match tx.call
    case SetAdmin(a) => ExecSetAdmin(s, a, tx.signers)
    case SetFee(bps, receiver) => ExecSetFee(s, bps, receiver, tx.signers)
    case Migrate => ExecMigrate(s, tx.signers)
    case OpenPot(sid, a, b, stake, now) => ExecOpenPot(s, sid, a, b, stake, now, tx.signers)
    case Stake(sid, player) => ExecStake(s, sid, player, tx.signers)
    case Resolve(sid, winner) => ExecResolve(s, sid, winner, tx.signers)
    case Refund(sid) => ExecRefund(s, sid, tx.signers)
    case Transfer(from, to, amount) =>
      if from !in tx.signers then (s, Trapped)
      else
        match Moved(s.tokens, from, to, amount)
        case None => (s, Trapped)
        case Some(t) => (s.(tokens := t), Done)
  }

  function ExecSetAdmin(s: Chain, newAdmin: Address, signers: set<Address>): (Chain, Response) {
    if s.config.None? then (s, Rejected(NotInitialized))
    else if s.config.value.admin !in signers then (s, Trapped)
    else (s.(config := Some(s.config.value.(admin := newAdmin))), Done)
  }

  function ExecSetFee(s: Chain, bps: nat, receiver: Option<Address>, signers: set<Address>): (Chain, Response) {
    if s.config.None? then (s, Rejected(NotInitialized))
    else if s.config.value.admin !in signers then (s, Trapped)
    else if bps > MAX_FEE_BPS then (s, Rejected(FeeTooHigh))
    else if bps > 0 && receiver.None? then (s, Rejected(FeeReceiverRequired))
    else (s.(config := Some(s.config.value.(feeBps := bps, feeReceiver := receiver))), Done)
  }

  function ExecMigrate(s: Chain, signers: set<Address>): (Chain, Response) {
    if s.config.None? then (s, Rejected(NotInitialized))
    else if s.config.value.admin !in signers then (s, Trapped)
    else if (if s.version.Some? then s.version.value else 0) < CURRENT_VERSION then
      (s.(config := Some(s.config.value.(feeBps := 0, feeReceiver := None)), version := Some(CURRENT_VERSION)), Done)
    else (s, Done)
  }

  function ExecOpenPot(s: Chain, sid: SessionId, a: Address, b: Address, stake: int, now: nat, signers: set<Address>)
    : (Chain, Response)
  {
    if s.config.None? then (s, Rejected(NotInitialized))
    else if s.config.value.resolver !in signers then (s, Trapped)
    else if stake <= 0 then (s, Rejected(InvalidStake))
    else if a == b then (s, Rejected(SamePlayer))
    else if sid in s.pots then (s, Rejected(PotAlreadyExists))
    else (s.(pots := s.pots[sid := Pot(a, b, stake, false, false, Open, now + CLAIM_WINDOW_LEDGERS)]), Done)
  }

  function ExecStake(s: Chain, sid: SessionId, player: Address, signers: set<Address>): (Chain, Response) {
    if s.config.None? then (s, Rejected(NotInitialized))
    else if player !in signers then (s, Trapped)
    else if sid !in s.pots then (s, Rejected(PotNotFound))
    else
      var pot := s.pots[sid];
      if player != pot.playerA && player != pot.playerB then (s, Rejected(NotAPlayer))
      else if pot.status == Resolved || pot.status == Refunded then (s, Rejected(PotNotOpen))
      else if (player == pot.playerA && pot.fundedA) || (player == pot.playerB && pot.fundedB) then
        (s, Rejected(AlreadyStaked))
      else
        match Moved(s.tokens, player, s.self, pot.stake)
        case None => (s, Trapped)
        case Some(t) =>
          var a, b := pot.fundedA || player == pot.playerA, pot.fundedB || player != pot.playerA;
          var pot' := pot.(fundedA := a, fundedB := b, status := if a && b then Funded else Open);
          (s.(tokens := t, pots := s.pots[sid := pot']), Done)
  }

  /** The fee on a payout, or None when the arithmetic leaves i128. */
  function FeeOn(payout: int, bps: nat): Option<int> {
    if bps == 0 then Some(0)
    else if !InI128(payout * bps) then None
    else Some(TruncDiv(payout * bps, BPS_DENOMINATOR))
  }

  function ExecResolve(s: Chain, sid: SessionId, winner: Address, signers: set<Address>): (Chain, Response) {
    if s.config.None? then (s, Rejected(NotInitialized))
    else if s.config.value.resolver !in signers then (s, Trapped)
    else if sid !in s.pots then (s, Rejected(PotNotFound))
    else if s.pots[sid].status != Funded then (s, Rejected(PotNotFunded))
    else if winner != s.pots[sid].playerA && winner != s.pots[sid].playerB then (s, Rejected(NotAPlayer))
    else
      match PaidOut(s, s.pots[sid].stake, winner)
      case None => (s, Trapped)
      case Some(t) => (s.(tokens := t, pots := s.pots[sid := s.pots[sid].(status := Resolved)]), Done)
  }

  /** The ledger after the fee and the winner are paid. */
  function PaidOut(s: Chain, stake: int, winner: Address): Option<Ledger>
    requires s.config.Some?
  {
    var cfg := s.config.value;
    if !InI128(stake * 2) || FeeOn(stake * 2, cfg.feeBps).None? then None
    else
      var fee := FeeOn(stake * 2, cfg.feeBps).value;
      var afterFee := if fee > 0 && cfg.feeReceiver.Some?
                      then Moved(s.tokens, s.self, cfg.feeReceiver.value, fee)
                      else Some(s.tokens);
      if afterFee.None? then None else Moved(afterFee.value, s.self, winner, stake * 2 - fee)
  }

  function ExecRefund(s: Chain, sid: SessionId, signers: set<Address>): (Chain, Response) {
    if s.config.None? then (s, Rejected(NotInitialized))
    else if s.config.value.resolver !in signers then (s, Trapped)
    else if sid !in s.pots then (s, Rejected(PotNotFound))
    else if s.pots[sid].status != Funded && s.pots[sid].status != Open then (s, Rejected(PotNotOpen))
    else
      match Returned(s, s.pots[sid])
      case None => (s, Trapped)
      case Some(t) => (s.(tokens := t, pots := s.pots[sid := s.pots[sid].(status := Refunded)]), Done)
  }

  /** The ledger after each staked player got the stake back. */
  function Returned(s: Chain, pot: Pot): Option<Ledger> {
    var first := if pot.fundedA then Moved(s.tokens, s.self, pot.playerA, pot.stake) else Some(s.tokens);
    if first.None? || !pot.fundedB then first
    else Moved(first.value, s.self, pot.playerB, pot.stake)
  }

  // ----- The contract -----

  class Contract {
    const self: Address
    var config: Option<Config>
    var version: Option<nat>
    var pots: map<SessionId, Pot>
    var tokens: Ledger

    ghost function Storage(): Chain
      reads this
    {
      Chain(self, config, version, pots, tokens)
    }

    /** Deployment: runs once, signed by the admin (the host refuses it otherwise). */
    constructor (self: Address, admin: Address, token: Address, resolver: Address, tokens: Ledger,
                 signers: set<Address>)
      requires admin in signers
      ensures Storage() == Deployed(self, admin, token, resolver, tokens)
    {
      this.self := self;
      this.config := Some(Config(admin, token, resolver, 0, None));
      this.version := Some(CURRENT_VERSION);
      this.pots := map[];
      this.tokens := tokens;
    }

    method SetAdmin(newAdmin: Address, signers: set<Address>) returns (r: Response)
      modifies this
      ensures (Storage(), r) == Exec(old(Storage()), Tx(Call.SetAdmin(newAdmin), signers))
    {
      if config.None? { return Rejected(NotInitialized); }
      var cfg := config.value;
      if cfg.admin !in signers { return Trapped; }
      cfg := cfg.(admin := newAdmin);
      config := Some(cfg);
      r := Done;
    }

    method SetFee(feeBps: nat, receiver: Option<Address>, signers: set<Address>) returns (r: Response)
      modifies this
      ensures (Storage(), r) == Exec(old(Storage()), Tx(Call.SetFee(feeBps, receiver), signers))
    {
      if config.None? { return Rejected(NotInitialized); }
      var cfg := config.value;
      if cfg.admin !in signers { return Trapped; }
      if feeBps > MAX_FEE_BPS { return Rejected(FeeTooHigh); }
      if feeBps > 0 && receiver.None? { return Rejected(FeeReceiverRequired); }
      cfg := cfg.(feeBps := feeBps);
      cfg := cfg.(feeReceiver := receiver);
      config := Some(cfg);
      r := Done;
    }

    method Migrate(signers: set<Address>) returns (r: Response)
      modifies this
      ensures (Storage(), r) == Exec(old(Storage()), Tx(Call.Migrate, signers))
    {
      if config.None? { return Rejected(NotInitialized); }
      var cfg := config.value;
      if cfg.admin !in signers { return Trapped; }
      var current := if version.Some? then version.value else 0;
      if current < CURRENT_VERSION {
        cfg := cfg.(feeBps := 0, feeReceiver := None);
        config := Some(cfg);
        version := Some(CURRENT_VERSION);
      }
      r := Done;
    }

    method Resolve(sid: SessionId, winner: Address, signers: set<Address>) returns (r: Response)
      modifies this
      ensures (Storage(), r) == Exec(old(Storage()), Tx(Call.Resolve(sid, winner), signers))
    {
      if config.None? { return Rejected(NotInitialized); }
      var cfg := config.value;
      if cfg.resolver !in signers { return Trapped; }
      if sid !in pots { return Rejected(PotNotFound); }
      var pot := pots[sid];
      if pot.status != Funded { return Rejected(PotNotFunded); }
      if winner != pot.playerA && winner != pot.playerB { return Rejected(NotAPlayer); }

      var payout := pot.stake * 2;
      if !InI128(payout) { return Trapped; }
      var fee := 0;
      if cfg.feeBps > 0 {
        if !InI128(payout * cfg.feeBps) { return Trapped; }
        fee := TruncDiv(payout * cfg.feeBps, BPS_DENOMINATOR);
      }
      var ledger := tokens;
      if fee > 0 && cfg.feeReceiver.Some? {
        match Moved(ledger, self, cfg.feeReceiver.value, fee) {
          case None => return Trapped;
          case Some(t) => ledger := t;
        }
      }
      match Moved(ledger, self, winner, payout - fee) {
        case None => return Trapped;
        case Some(t) => ledger := t;
      }
      tokens := ledger;
      pots := pots[sid := pot.(status := Resolved)];
      r := Done;
    }

    method RefundPot(sid: SessionId, signers: set<Address>) returns (r: Response)
      modifies this
      ensures (Storage(), r) == Exec(old(Storage()), Tx(Call.Refund(sid), signers))
    {
      if config.None? { return Rejected(NotInitialized); }
      if config.value.resolver !in signers { return Trapped; }
      if sid !in pots { return Rejected(PotNotFound); }
      var pot := pots[sid];
      if pot.status != Funded && pot.status != Open { return Rejected(PotNotOpen); }

      var ledger := tokens;
      if pot.fundedA {
        match Moved(ledger, self, pot.playerA, pot.stake) {
          case None => return Trapped;
          case Some(t) => ledger := t;
        }
      }
      if pot.fundedB {
        match Moved(ledger, self, pot.playerB, pot.stake) {
          case None => return Trapped;
          case Some(t) => ledger := t;
        }
      }
      tokens := ledger;
      pots := pots[sid := pot.(status := Refunded)];
      r := Done;
    }
  }

  function Deployed(self: Address, admin: Address, token: Address, resolver: Address, tokens: Ledger): Chain {
    Chain(self, Some(Config(admin, token, resolver, 0, None)), Some(CURRENT_VERSION), map[], tokens)
  }
}
