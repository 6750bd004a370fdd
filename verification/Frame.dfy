/** The reserved-address invariant (reserved.rs): which intents may move which
    protocol-owned balance.  `L1Lock` is the one arm that does not test its
    source; the exact condition under which it takes from a protocol account is
    stated here. */
module Frame {
  import opened Balances
  import opened Registries
  import opened Intents
  import opened Moves
  import opened RegistryFrame
  import opened SupplyLedger

  /** No lock is taken out of a protocol account. */
  predicate UserLock(i: Intent)
  {
    i.L1Lock? ==> !i.user.Reserved?
  }

  /** The intent is a lock that takes money out of `a`. */
  predicate LockTakes(s: State, i: Intent, a: Address)
  {
    i.L1Lock? && i.user == a && Gate(s, i) == [] && 0 < i.amount <= Bal(s.balances, a)
  }

  /** Along the run no lock takes money out of `a`. */
  predicate NoLockTakes(s: State, ops: seq<Op>, a: Address)
    decreases |ops|
  {
    ops == [] ||
    var init, op := ops[..|ops| - 1], ops[|ops| - 1];
    NoLockTakes(s, init, a) && (op.Attempt? ==> !LockTakes(Run(s, init), op.intent, a))
  }

  lemma {:induction false} UserLocksTakeNothing(s: State, ops: seq<Op>, a: Address)
    requires a.Reserved? && forall k | 0 <= k < |ops| && ops[k].Attempt? :: UserLock(ops[k].intent)
    ensures NoLockTakes(s, ops, a)
    decreases |ops|
  {
    if ops != [] {
      assert forall k | 0 <= k < |ops| - 1 :: ops[..|ops| - 1][k] == ops[k];
      UserLocksTakeNothing(s, ops[..|ops| - 1], a);
    }
  }

  ghost function CreditedBy(cs: Credits): set<Address>
  {
    set c | c in cs :: c.0
  }

  /** The protocol accounts an intent may touch at all. */
  ghost function TouchedAccounts(i: Intent): set<Address>
  {
    match i
    case GenesisAllocation(cs) => CreditedBy(cs)
    case MintInflation(_, _, _, _) => {RewardsPool(AuthorityRing), RewardsPool(ValidatorRing), TREASURY}
    case DistributeRewards(_, ring, _) => {RewardsPool(ring)}
    case Delegate(_, _, _) => {StakePool(ValidatorRing)}
    case DepositStake(ring, _, _, _) => {StakePool(ring)}
    case WithdrawStake(ring, _, _, _) => {StakePool(ring)}
    case Eject(ring, _) => {StakePool(ring), INSURANCE, TREASURY}
    case L1Lock(_, _, _) => {ESCROW}
    case L2BurnProven(_, _, _, _, _, _) => {ESCROW}
    case SlashSequencer(reason, _) =>
      (match reason
       case MissedForceInclude => {BOND, INSURANCE, TREASURY}
       case Downtime => {}
       case _ => {SAFETY, INSURANCE, TREASURY})
    case EjectSequencer(_, _) => {TREASURY}
    case DepositSequencerBond(_, _) => {BOND}
    case DepositSafetyBond(_, _) => {SAFETY}
    case DisburseTreasury(_, _) => {TREASURY}
    case ClaimInsurance(_, _) => {INSURANCE}
    case DistributeSlashedFunds(_, _, _) => {INSURANCE, TREASURY}
    case _ => {}
  }

  /** The move leaves the balance of `a` alone. */
  ghost predicate Spares(b: Ledger, m: Moved, a: Address)
  {
    Bal(m.balances, a) == Bal(b, a)
  }

  lemma {:induction false} NotCreditedGetsNothing(cs: Credits, a: Address)
    requires a !in CreditedBy(cs)
    ensures SumTo(cs, a) == 0
  {
    if cs != [] {
      assert cs[|cs| - 1] in cs;
      forall c | c in cs[..|cs| - 1] ensures c in cs {}
      NotCreditedGetsNothing(cs[..|cs| - 1], a);
    }
  }

  lemma {:induction false} OnlyUsersGetNothingReserved(cs: Credits, a: Address)
    requires FirstReserved(cs) == [] && a.Reserved?
    ensures SumTo(cs, a) == 0
  {
    if cs != [] {
      OnlyUsersGetNothingReserved(cs[..|cs| - 1], a);
    }
  }

  /** Crediting in turn, even when it stops half-way, leaves uncredited accounts alone. */
  lemma {:induction false} InTurnSpares(b: Ledger, cs: Credits, a: Address)
    requires SumTo(cs, a) == 0
    ensures Spares(b, CreditInTurn(b, cs), a)
    decreases |cs|
  {
    if cs != [] {
      InTurnSpares(b, cs[..|cs| - 1], a);
    }
  }

  lemma TransferSpares(b: Ledger, from: Address, to: Address, x: nat, a: Address)
    requires a != from && a != to
    ensures Spares(b, TransferInternal(b, from, to, x), a) && Spares(b, UserTransfer(b, from, to, x), a)
  {
    TransferInternalPays(b, from, to, x);
  }

  lemma PaymentSpares(b: Ledger, from: Address, to: Address, x: nat, a: Address)
    requires a != from && a != to
    ensures Spares(b, DebitThenCredit(b, from, to, x), a)
  {
    DebitThenCreditPays(b, from, to, x);
  }

  lemma SlashSpares(b: Ledger, bond: Address, slash: nat, a: Address)
    requires InsuranceShare(slash) <= slash && a != bond && a != INSURANCE && a != TREASURY
    ensures Spares(b, SlashMoves(b, bond, slash), a)
  {
    WaterfallTotals(slash);
    InTurnSpares(DebitUnchecked(b, bond, slash).balances, Waterfall(slash), a);
  }

  lemma StrikeSpares(b: Ledger, submitter: Address, a: Address)
    requires a.Reserved? && a != BOND && a != INSURANCE && a != TREASURY
    ensures Spares(b, StrikeMove(b, submitter), a)
  {
    var slash := LivenessSlash(Bal(b, BOND));
    ShareFits(slash);
    SlashSpares(b, BOND, slash, a);
    if !submitter.Reserved? {
      var c := SlashMoves(b, BOND, slash).balances;
      PaymentSpares(c, TREASURY, submitter, Lesser(SnitchBounty(slash), Bal(c, TREASURY)), a);
    }
  }

  lemma EjectSpares(b: Ledger, pool: Address, deposited: nat, a: Address)
    requires a != pool && a != INSURANCE && a != TREASURY
    ensures Spares(b, EjectMove(b, pool, deposited), a)
  {
    var drained := Lesser(deposited, Bal(b, pool));
    ShareFits(drained);
    WaterfallTotals(drained);
    DrainPays(b, pool, Waterfall(drained));
  }

  lemma StakingSpares(s: State, i: Intent, a: Address)
    requires Staking(i) && Gate(s, i) == [] && a.Reserved? && a !in TouchedAccounts(i)
    ensures Spares(s.balances, MoveOf(s.balances, s.reg, i), a)
  {
    match i
    case Transfer(from, to, x) => TransferSpares(s.balances, from, to, x, a);
    case Delegate(from, _, x) => UserSourceSpares(s.balances, from, StakePool(ValidatorRing), x, a);
    case DepositStake(ring, from, _, x) => UserSourceSpares(s.balances, from, StakePool(ring), x, a);
    case WithdrawStake(ring, to, _, x) => UserTargetSpares(s.balances, StakePool(ring), to, x, a);
    case Eject(ring, id) => EjectSpares(s.balances, StakePool(ring), Slot(s.reg, ring, id).deposited, a);
    case DistributeRewards(_, ring, cs) =>
      OnlyUsersGetNothingReserved(cs, a);
      DrainPays(s.balances, RewardsPool(ring), cs);
  }

  /** A zero amount moves nothing even when the gates were not consulted. */
  lemma UserSourceSpares(b: Ledger, from: Address, to: Address, x: nat, a: Address)
    requires a.Reserved? && a != to && (x == 0 || !from.Reserved?)
    ensures Spares(b, TransferInternal(b, from, to, x), a) && Spares(b, DebitThenCredit(b, from, to, x), a)
  {
    if x > 0 {
      TransferSpares(b, from, to, x, a);
      PaymentSpares(b, from, to, x, a);
    }
  }

  lemma UserTargetSpares(b: Ledger, from: Address, to: Address, x: nat, a: Address)
    requires a.Reserved? && a != from && (x == 0 || !to.Reserved?)
    ensures Spares(b, TransferInternal(b, from, to, x), a) && Spares(b, DebitThenCredit(b, from, to, x), a)
  {
    if x > 0 {
      TransferSpares(b, from, to, x, a);
      PaymentSpares(b, from, to, x, a);
    }
  }

  lemma MintingSpares(s: State, i: Intent, a: Address)
    requires Minting(i) && Gate(s, i) == [] && a.Reserved? && a !in TouchedAccounts(i)
    ensures Spares(s.balances, MoveOf(s.balances, s.reg, i), a)
  {
    match i
    case GenesisAllocation(cs) =>
      NotCreditedGetsNothing(cs, a);
      CreditManyPays(s.balances, cs);
    case MintInflation(_, x, y, z) =>
      NotCreditedGetsNothing(MintCredits(x, y, z), a);
      CreditManyPays(s.balances, MintCredits(x, y, z));
    case DistributeSlashedFunds(cs, insurance, treasury) =>
      var tail := [(INSURANCE, insurance), (TREASURY, treasury)];
      OnlyUsersGetNothingReserved(cs, a);
      NotCreditedGetsNothing(tail, a);
      SumToSplits(cs, tail, a);
      InTurnSpares(s.balances, SlashedCredits(cs, insurance, treasury), a);
  }

  lemma PayingSpares(s: State, i: Intent, a: Address)
    requires Paying(i) && !LockTakes(s, i, a) && Gate(s, i) == [] && a.Reserved? && a !in TouchedAccounts(i)
    ensures Spares(s.balances, MoveOf(s.balances, s.reg, i), a)
  {
    PayingIsPayment(s.balances, s.reg, i);
    if 0 < i.amount <= Bal(s.balances, Payer(i)) {
      PayerAndPayee(s, i, a);
      PaymentSpares(s.balances, Payer(i), Payee(i), i.amount, a);
    } else {
      NothingPaid(s.balances, Payer(i), Payee(i), i.amount);
    }
  }

  lemma PayerAndPayee(s: State, i: Intent, a: Address)
    requires Paying(i) && !LockTakes(s, i, a) && Gate(s, i) == [] && a.Reserved? && a !in TouchedAccounts(i)
    requires 0 < i.amount <= Bal(s.balances, Payer(i))
    ensures a != Payer(i) && a != Payee(i)
  {
  }

  lemma NothingPaid(b: Ledger, from: Address, to: Address, x: nat)
    requires x == 0 || x > Bal(b, from)
    ensures DebitThenCredit(b, from, to, x).balances == b
  {
  }

  lemma PenalizingSpares(s: State, i: Intent, a: Address)
    requires Penalizing(i) && Gate(s, i) == [] && a.Reserved? && a !in TouchedAccounts(i)
    ensures Spares(s.balances, MoveOf(s.balances, s.reg, i), a)
  {
    match i
    case SlashSequencer(reason, id) =>
      if reason == MissedForceInclude {
        if id in s.reg.obligations { StrikeSpares(s.balances, s.reg.obligations[id].submitter, a); }
      } else if reason != Downtime {
        ShareFits(Bal(s.balances, SAFETY));
        SlashSpares(s.balances, SAFETY, Bal(s.balances, SAFETY), a);
      }
    case EjectSequencer(_, ejector) =>
      var paid := Lesser(EjectorBounty(s.balances), Bal(s.balances, TREASURY));
      UserTargetSpares(s.balances, TREASURY, ejector, paid, a);
  }

  lemma MoveSpares(s: State, i: Intent, a: Address)
    requires !LockTakes(s, i, a) && Gate(s, i) == [] && a.Reserved? && a !in TouchedAccounts(i)
    ensures Spares(s.balances, MoveOf(s.balances, s.reg, i), a)
  {
    if Staking(i) {
      StakingSpares(s, i, a);
    } else if Minting(i) {
      MintingSpares(s, i, a);
    } else if Paying(i) {
      PayingSpares(s, i, a);
    } else if Penalizing(i) {
      PenalizingSpares(s, i, a);
    }
  }

  /** What a lock takes, whether or not the escrow can be credited. */
  lemma LockTakesAmount(s: State, i: Intent, a: Address)
    requires LockTakes(s, i, a) && a != ESCROW
    ensures Bal(MoveOf(s.balances, s.reg, i).balances, a) == Bal(s.balances, a) - i.amount
  {
    DebitThenCreditPays(s.balances, a, ESCROW, i.amount);
  }

  /** An intent, applied or failing, moves a protocol balance outside its own short
      list exactly when it is a lock that takes from it. */
  lemma ReservedFrame(s: State, i: Intent, a: Address)
    requires a.Reserved? && a !in TouchedAccounts(i)
    ensures Bal(Apply(s, i).state.balances, a) == Bal(s.balances, a) <==> !LockTakes(s, i, a)
  {
    ApplyParts(s, i);
    if LockTakes(s, i, a) {
      LockTakesAmount(s, i, a);
    } else if Gate(s, i) == [] {
      MoveSpares(s, i, a);
    }
  }

  // ----- Balances stay sound -----

  lemma StrikeSound(b: Ledger, submitter: Address)
    requires Sound(b)
    ensures Sound(StrikeMove(b, submitter).balances)
  {
    var slash := LivenessSlash(Bal(b, BOND));
    LivenessSlashIsSmall(Bal(b, BOND));
    ShareFits(slash);
    SlashPays(b, BOND, slash);
    if !submitter.Reserved? {
      BountyPays(SlashMoves(b, BOND, slash).balances, submitter, SnitchBounty(slash));
    }
  }

  lemma EjectSound(b: Ledger, pool: Address, deposited: nat)
    requires Sound(b)
    ensures Sound(EjectMove(b, pool, deposited).balances)
  {
    var drained := Lesser(deposited, Bal(b, pool));
    ShareFits(drained);
    DrainPays(b, pool, Waterfall(drained));
  }

  lemma StakingSound(b: Ledger, r: Registries, i: Intent)
    requires Staking(i) && Sound(b)
    ensures Sound(MoveOf(b, r, i).balances)
  {
    match i
    case Transfer(from, to, x) => TransferInternalPays(b, from, to, x);
    case Delegate(from, _, x) => TransferInternalPays(b, from, StakePool(ValidatorRing), x);
    case DepositStake(ring, from, _, x) => TransferInternalPays(b, from, StakePool(ring), x);
    case WithdrawStake(ring, to, _, x) => TransferInternalPays(b, StakePool(ring), to, x);
    case Eject(ring, id) => EjectSound(b, StakePool(ring), Slot(r, ring, id).deposited);
    case DistributeRewards(_, ring, cs) => DrainPays(b, RewardsPool(ring), cs);
  }

  lemma MintingSound(b: Ledger, r: Registries, i: Intent)
    requires Minting(i) && Sound(b)
    ensures Sound(MoveOf(b, r, i).balances)
  {
    match i
    case GenesisAllocation(cs) => CreditManyPays(b, cs);
    case MintInflation(_, x, y, z) => CreditManyPays(b, MintCredits(x, y, z));
    case DistributeSlashedFunds(cs, x, y) => CreditInTurnPays(b, SlashedCredits(cs, x, y));
  }

  lemma PaymentSound(b: Ledger, from: Address, to: Address, x: nat)
    requires Sound(b)
    ensures Sound(DebitThenCredit(b, from, to, x).balances)
  {
    DebitThenCreditPays(b, from, to, x);
  }

  lemma PayingSound(b: Ledger, r: Registries, i: Intent)
    requires Paying(i) && Sound(b)
    ensures Sound(MoveOf(b, r, i).balances)
  {
    PayingIsPayment(b, r, i);
    PaymentSound(b, Payer(i), Payee(i), i.amount);
  }

  lemma PenalizingSound(b: Ledger, r: Registries, i: Intent)
    requires Penalizing(i) && Sound(b)
    ensures Sound(MoveOf(b, r, i).balances)
  {
    match i
    case SlashSequencer(reason, id) =>
      if reason == MissedForceInclude {
        if id in r.obligations { StrikeSound(b, r.obligations[id].submitter); }
      } else {
        ShareFits(Bal(b, SAFETY));
        SlashPays(b, SAFETY, Bal(b, SAFETY));
      }
    case EjectSequencer(_, ejector) =>
      PaymentSound(b, TREASURY, ejector, Lesser(EjectorBounty(b), Bal(b, TREASURY)));
  }

  /** No intent, applied or failing, stores a zero balance or one beyond u128. */
  lemma IntentKeepsSound(s: State, i: Intent)
    requires Sound(s.balances)
    ensures Sound(Apply(s, i).state.balances)
  {
    ApplyParts(s, i);
    if Staking(i) {
      StakingSound(s.balances, s.reg, i);
    } else if Minting(i) {
      MintingSound(s.balances, s.reg, i);
    } else if Paying(i) {
      PayingSound(s.balances, s.reg, i);
    } else if Penalizing(i) {
      PenalizingSound(s.balances, s.reg, i);
    }
  }

  lemma {:induction false} RunKeepsSound(s: State, ops: seq<Op>)
    requires Sound(s.balances)
    ensures Sound(Run(s, ops).balances)
    decreases |ops|
  {
    if ops != [] {
      RunKeepsSound(s, ops[..|ops| - 1]);
      if ops[|ops| - 1].Attempt? {
        IntentKeepsSound(Run(s, ops[..|ops| - 1]), ops[|ops| - 1].intent);
      }
    }
  }
}
