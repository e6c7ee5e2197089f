/**
 * Who may change what in the escrow contract: each entry point succeeds exactly
 * under its guards and changes exactly its own fields; and over every run
 * nothing moves that its owner, or the role responsible for it, did not sign.
 */
module EscrowAuthority {
  import opened Prelude
  import opened EscrowTypes
  import opened EscrowContract
  import opened EscrowSafety

  // ----- Each entry point -----

  /** Only the configuration may differ. */
  predicate SameButConfig(s: Chain, s': Chain) {
    s'.self == s.self && s'.version == s.version && s'.pots == s.pots && s'.tokens == s.tokens
  }

  /** Token and resolver are never changed by anybody. */
  predicate SameRoles(c: Config, c': Config) {
    c'.token == c.token && c'.resolver == c.resolver
  }

  /** The constructor gives each argument its own role, no fee, version 2 and no pots. */
  lemma ConstructorFields(self: Address, admin: Address, token: Address, resolver: Address, tokens: Ledger)
    ensures var s := Deployed(self, admin, token, resolver, tokens);
            && s.self == self && s.tokens == tokens && s.pots == map[] && s.version == Some(2)
            && s.config.Some? && s.config.value.admin == admin && s.config.value.token == token
            && s.config.value.resolver == resolver
            && s.config.value.feeBps == 0 && s.config.value.feeReceiver == None
  {
  }

  /** The fee is set exactly by the admin, within a tenth, and with a receiver unless it is zero. */
  lemma SetFeeExactly(s: Chain, bps: nat, receiver: Option<Address>, signers: set<Address>)
    ensures var (s', r) := Exec(s, Tx(SetFee(bps, receiver), signers));
            && (r == Done <==> s.config.Some? && s.config.value.admin in signers
                               && bps <= 1000 && (bps > 0 ==> receiver.Some?))
            && (r == Done ==>
                  && SameButConfig(s, s') && s'.config.Some? && SameRoles(s.config.value, s'.config.value)
                  && s'.config.value.admin == s.config.value.admin
                  && s'.config.value.feeBps == bps && s'.config.value.feeReceiver == receiver)
            && (s.config.Some? && s.config.value.admin in signers && bps > 1000 ==> r == Rejected(FeeTooHigh))
            && (s.config.Some? && s.config.value.admin in signers && 0 < bps <= 1000 && receiver.None? ==>
                  r == Rejected(FeeReceiverRequired))
  {
  }

  /** The admin is replaced exactly by the admin. */
  lemma SetAdminExactly(s: Chain, newAdmin: Address, signers: set<Address>)
    ensures var (s', r) := Exec(s, Tx(SetAdmin(newAdmin), signers));
            && (r == Done <==> s.config.Some? && s.config.value.admin in signers)
            && (r == Done ==>
                  && SameButConfig(s, s') && s'.config.Some? && SameRoles(s.config.value, s'.config.value)
                  && s'.config.value.admin == newAdmin
                  && s'.config.value.feeBps == s.config.value.feeBps
                  && s'.config.value.feeReceiver == s.config.value.feeReceiver)
  {
  }

  /** A migration is run exactly by the admin; behind version 2 it clears the fee and raises the version. */
  lemma MigrateExactly(s: Chain, signers: set<Address>)
    ensures var (s', r) := Exec(s, Tx(Migrate, signers));
            && (r == Done <==> s.config.Some? && s.config.value.admin in signers)
            && (r == Done && s.version.Some? && s.version.value >= 2 ==> s' == s)
            && (r == Done && (s.version.None? || s.version.value < 2) ==>
                  && s'.self == s.self && s'.pots == s.pots && s'.tokens == s.tokens && s'.version == Some(2)
                  && s'.config.Some? && SameRoles(s.config.value, s'.config.value)
                  && s'.config.value.admin == s.config.value.admin
                  && s'.config.value.feeBps == 0 && s'.config.value.feeReceiver == None)
  {
  }

  /** A pot is opened exactly by the resolver, for two different players, a positive stake and a new session. */
  lemma OpenPotExactly(
      s: Chain, sid: SessionId, a: Address, b: Address, stake: int, now: nat, signers: set<Address>)
    ensures var (s', r) := Exec(s, Tx(OpenPot(sid, a, b, stake, now), signers));
            && (r == Done <==> s.config.Some? && s.config.value.resolver in signers
                               && stake > 0 && a != b && sid !in s.pots)
            && (r == Done ==>
                  && s'.self == s.self && s'.config == s.config && s'.version == s.version && s'.tokens == s.tokens
                  && s'.pots == s.pots[sid := Pot(a, b, stake, false, false, Open, now + 120960)])
  {
  }

  /** What a stake, a payout and a refund leave of the pot; no other pot and no configuration changes. */
  lemma PotAfter(s: Chain, tx: Tx, sid: SessionId)
    requires Inv(s) && Exec(s, tx).1 == Done
    requires (tx.call.Stake? || tx.call.Resolve? || tx.call.Refund?) && tx.call.sid == sid
    ensures sid in s.pots && s.config.Some?
    ensures var (s', pot) := (Exec(s, tx).0, s.pots[sid]);
            && s'.self == s.self && s'.config == s.config && s'.version == s.version
            && sid in s'.pots && s'.pots == s.pots[sid := s'.pots[sid]]
            && s'.pots[sid].playerA == pot.playerA && s'.pots[sid].playerB == pot.playerB
            && s'.pots[sid].stake == pot.stake && s'.pots[sid].deadlineLedger == pot.deadlineLedger
            && (tx.call.Stake? ==>
                  && (s'.pots[sid].fundedA <==> pot.fundedA || tx.call.player == pot.playerA)
                  && (s'.pots[sid].fundedB <==> pot.fundedB || tx.call.player == pot.playerB)
                  && s'.pots[sid].status == if s'.pots[sid].fundedA && s'.pots[sid].fundedB then Funded else Open)
            && (!tx.call.Stake? ==>
                  && s'.pots[sid].fundedA == pot.fundedA && s'.pots[sid].fundedB == pot.fundedB
                  && s'.pots[sid].status == if tx.call.Resolve? then Resolved else Refunded)
  {
    assert PotOk(s.pots[sid], s.self);
  }

  // ----- One transaction -----

  /** Configuration and version change only with the signature of the admin in charge. */
  lemma OnlyAdminConfigures(s: Chain, tx: Tx)
    ensures var s' := Exec(s, tx).0;
            (s'.config != s.config || s'.version != s.version) ==>
              s.config.Some? && s.config.value.admin in tx.signers
  {
  }

  /** Who has to sign for an existing or new pot to change. */
  predicate SignedForPot(s: Chain, tx: Tx, sid: SessionId) {
    && s.config.Some?
    && (s.config.value.resolver in tx.signers
        || (sid in s.pots && tx.call.Stake? && tx.call.sid == sid && tx.call.player in tx.signers
            && (tx.call.player == s.pots[sid].playerA || tx.call.player == s.pots[sid].playerB)))
  }

  lemma OnlyThePartiesChangeAPot(s: Chain, tx: Tx, sid: SessionId)
    ensures var s' := Exec(s, tx).0;
            && (sid in s.pots ==> sid in s'.pots)
            && ((sid in s'.pots && (sid !in s.pots || s'.pots[sid] != s.pots[sid])) ==> SignedForPot(s, tx, sid))
  {
  }

  /** Nobody's balance falls without a signature: the owner's, or for the contract the resolver's. */
  lemma NobodyPaysUnasked(s: Chain, tx: Tx, a: Address)
    requires Inv(s) && BalanceOf(Exec(s, tx).0.tokens, a) < BalanceOf(s.tokens, a)
    ensures a in tx.signers || (a == s.self && s.config.Some? && s.config.value.resolver in tx.signers)
  {
    if Exec(s, tx).1 != Done {
      RefusedChangesNothing(s, tx);
    } else {
      match tx.call {
        case Stake(sid, player) => StakeEffect(s, sid, player, tx.signers);
        case Resolve(sid, winner) => ResolvePaysTwoStakes(s, sid, winner, tx.signers);
        case Refund(sid) => RefundReturnsStakes(s, sid, tx.signers);
        case Transfer(from, to, amount) => MovedEffect(s.tokens, from, to, amount);
        case _ =>
      }
    }
  }

  // ----- Every run -----

  ghost predicate NeverSigns(a: Address, txs: seq<Tx>) {
    forall i :: 0 <= i < |txs| ==> a !in txs[i].signers
  }

  lemma FewerNeverSigned(a: Address, txs: seq<Tx>, n: nat)
    requires NeverSigns(a, txs) && n <= |txs|
    ensures NeverSigns(a, txs[..n])
  {
  }

  /** While the admin signs nothing, configuration and version stay what they are, whatever else is sent. */
  lemma {:induction false} NoAdminNoChange(s: Chain, txs: seq<Tx>)
    requires s.config.Some? && NeverSigns(s.config.value.admin, txs)
    ensures After(s, txs).config == s.config && After(s, txs).version == s.version
    decreases |txs|
  {
    if txs != [] {
      var n := |txs| - 1;
      FewerNeverSigned(s.config.value.admin, txs, n);
      NoAdminNoChange(s, txs[..n]);
      OnlyAdminConfigures(After(s, txs[..n]), txs[n]);
    }
  }

  /** Token and resolver never change. */
  lemma {:induction false} RolesAreForGood(s: Chain, txs: seq<Tx>)
    requires s.config.Some?
    ensures After(s, txs).config.Some? && SameRoles(s.config.value, After(s, txs).config.value)
    ensures After(s, txs).self == s.self
    decreases |txs|
  {
    if txs != [] {
      RolesAreForGood(s, txs[..|txs| - 1]);
    }
  }

  /** While an account signs nothing, its balance never falls. */
  lemma {:induction false} SilentAccountsKeepTheirMoney(s: Chain, txs: seq<Tx>, a: Address)
    requires Inv(s) && OutsideSigned(s.self, txs) && a != s.self && NeverSigns(a, txs)
    ensures BalanceOf(After(s, txs).tokens, a) >= BalanceOf(s.tokens, a)
    decreases |txs|
  {
    if txs != [] {
      var n := |txs| - 1;
      FewerNeverSigned(a, txs, n);
      FewerNeverSigned(s.self, txs, n);
      SilentAccountsKeepTheirMoney(s, txs[..n], a);
      EveryRunIsSolvent(s, txs[..n]);
      var mid := After(s, txs[..n]);
      if BalanceOf(Exec(mid, txs[n]).0.tokens, a) < BalanceOf(mid.tokens, a) {
        NobodyPaysUnasked(mid, txs[n], a);
      }
    }
  }

  /** While the resolver signs nothing, the escrow account only grows. */
  lemma {:induction false} NoResolverNoPayout(s: Chain, txs: seq<Tx>)
    requires Inv(s) && OutsideSigned(s.self, txs) && NeverSigns(s.config.value.resolver, txs)
    ensures BalanceOf(After(s, txs).tokens, s.self) >= BalanceOf(s.tokens, s.self)
    decreases |txs|
  {
    if txs != [] {
      var n := |txs| - 1;
      FewerNeverSigned(s.config.value.resolver, txs, n);
      FewerNeverSigned(s.self, txs, n);
      NoResolverNoPayout(s, txs[..n]);
      EveryRunIsSolvent(s, txs[..n]);
      RolesAreForGood(s, txs[..n]);
      var mid := After(s, txs[..n]);
      if BalanceOf(Exec(mid, txs[n]).0.tokens, s.self) < BalanceOf(mid.tokens, s.self) {
        NobodyPaysUnasked(mid, txs[n], s.self);
      }
    }
  }
}
