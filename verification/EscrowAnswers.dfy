/** Which error the escrow contract gives for what, call by call; an unsigned call traps instead. */
module EscrowAnswers {
  import opened Prelude
  import opened EscrowTypes
  import opened EscrowContract

  /** The contract is set up and the resolver signed. */
  predicate ByResolver(s: Chain, signers: set<Address>) {
    s.config.Some? && s.config.value.resolver in signers
  }

  predicate Plays(pot: Pot, a: Address) {
    a in {pot.playerA, pot.playerB}
  }

  /** The pot has not been paid out or returned. */
  predicate Unsettled(pot: Pot) {
    pot.status in {Open, Funded}
  }

  predicate HasPaid(pot: Pot, player: Address) {
    (player == pot.playerA && pot.fundedA) || (player == pot.playerB && pot.fundedB)
  }

  /** Before anything else every call asks for the configuration and then for its signature. */
  lemma SignaturesComeFirst(s: Chain, tx: Tx)
    requires !tx.call.Transfer?
    ensures Exec(s, tx).1 == Rejected(NotInitialized) <==> s.config.None?
    ensures s.config.Some? ==>
              var cfg := s.config.value;
              var signer := match tx.call
                            case SetAdmin(_) => cfg.admin
                            case SetFee(_, _) => cfg.admin
                            case Migrate => cfg.admin
                            case Stake(_, player) => player
                            case _ => cfg.resolver;
              signer !in tx.signers ==> Exec(s, tx) == (s, Trapped)
  {
  }

  lemma OpenRefusals(
    s: Chain, sid: SessionId, a: Address, b: Address, stake: int, now: nat, signers: set<Address>)
    requires ByResolver(s, signers)
    ensures var r := Exec(s, Tx(OpenPot(sid, a, b, stake, now), signers)).1;
            && (r == Rejected(InvalidStake) <==> stake < 1)
            && (r == Rejected(SamePlayer) <==> stake >= 1 && a == b)
            && (r == Rejected(PotAlreadyExists) <==> stake >= 1 && a != b && sid in s.pots)
            && (r == Done <==> stake >= 1 && a != b && sid !in s.pots)
  {
  }

  /** A stake in order is taken unless the token refuses the transfer, which traps. */
  lemma StakeRefusals(s: Chain, sid: SessionId, player: Address, signers: set<Address>)
    requires s.config.Some? && player in signers
    ensures var r := Exec(s, Tx(Call.Stake(sid, player), signers)).1;
            && (r == Rejected(PotNotFound) <==> sid !in s.pots)
            && (sid in s.pots ==>
                  var pot := s.pots[sid];
                  && (r == Rejected(NotAPlayer) <==> !Plays(pot, player))
                  && (r == Rejected(PotNotOpen) <==> Plays(pot, player) && !Unsettled(pot))
                  && (r == Rejected(AlreadyStaked) <==> Plays(pot, player) && Unsettled(pot) && HasPaid(pot, player))
                  && (r in {Done, Trapped} <==> Plays(pot, player) && Unsettled(pot) && !HasPaid(pot, player)))
  {
  }

  lemma ResolveRefusals(s: Chain, sid: SessionId, winner: Address, signers: set<Address>)
    requires ByResolver(s, signers)
    ensures var r := Exec(s, Tx(Resolve(sid, winner), signers)).1;
            && (r == Rejected(PotNotFound) <==> sid !in s.pots)
            && (sid in s.pots ==>
                  var pot := s.pots[sid];
                  && (r == Rejected(PotNotFunded) <==> pot.status in {Open, Resolved, Refunded})
                  && (r == Rejected(NotAPlayer) <==> pot.status == Funded && !Plays(pot, winner))
                  && (r in {Done, Trapped} <==> pot.status == Funded && Plays(pot, winner)))
  {
  }

  lemma RefundRefusals(s: Chain, sid: SessionId, signers: set<Address>)
    requires ByResolver(s, signers)
    ensures var r := Exec(s, Tx(Call.Refund(sid), signers)).1;
            && (r == Rejected(PotNotFound) <==> sid !in s.pots)
            && (sid in s.pots ==>
                  && (r == Rejected(PotNotOpen) <==> !Unsettled(s.pots[sid]))
                  && (r in {Done, Trapped} <==> Unsettled(s.pots[sid])))
  {
  }
}
