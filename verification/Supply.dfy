/** The supply ledger: which intents create value, and that nothing else does. */
module SupplyLedger {
  import opened Balances
  import opened Registries
  import opened Intents
  import opened Moves
  import opened RegistryFrame

  /** What an intent mints if it is applied. */
  function MintOf(i: Intent): nat
  {
    match i
    case GenesisAllocation(cs) => Total(cs)
    case MintInflation(_, a, v, t) => a + v + t
    case DistributeSlashedFunds(cs, insurance, treasury) => Total(cs) + insurance + treasury
    case _ => 0
  }

  /** The law of one move: a success adds exactly `mint`, and nothing ever adds more. */
  ghost predicate Lawful(b: Ledger, m: Moved, mint: nat)
  {
    && (m.outcome.Ok? ==> Supply(m.balances) == Supply(b) + mint)
    && Supply(m.balances) <= Supply(b) + mint
  }

  /** A failure moves nothing. */
  ghost predicate Atomic(b: Ledger, m: Moved)
  {
    m.outcome.Err? ==> m.balances == b
  }

  lemma TransferLaw(b: Ledger, from: Address, to: Address, x: nat)
    ensures Lawful(b, TransferInternal(b, from, to, x), 0) && Atomic(b, TransferInternal(b, from, to, x))
    ensures Lawful(b, UserTransfer(b, from, to, x), 0) && Atomic(b, UserTransfer(b, from, to, x))
  {
    TransferInternalPays(b, from, to, x);
  }

  lemma PaymentLaw(b: Ledger, from: Address, to: Address, x: nat)
    ensures Lawful(b, DebitThenCredit(b, from, to, x), 0)
    ensures Supply(b) <= U128_MAX ==> Atomic(b, DebitThenCredit(b, from, to, x))
  {
    DebitThenCreditPays(b, from, to, x);
    if x <= Bal(b, from) { SupplyDebit(b, from, x); }
    if Supply(b) <= U128_MAX { PaymentsFit(b, from, to, x); }
  }

  lemma DrainLaw(b: Ledger, from: Address, cs: Credits)
    ensures Lawful(b, DrainAndCreditAtomic(b, from, cs), 0) && Atomic(b, DrainAndCreditAtomic(b, from, cs))
  {
    DrainPays(b, from, cs);
  }

  lemma EjectLaw(b: Ledger, pool: Address, deposited: nat)
    ensures Lawful(b, EjectMove(b, pool, deposited), 0) && Atomic(b, EjectMove(b, pool, deposited))
  {
    var drained := Lesser(deposited, Bal(b, pool));
    ShareFits(drained);
    DrainLaw(b, pool, Waterfall(drained));
  }

  lemma CreditManyLaw(b: Ledger, cs: Credits)
    ensures Lawful(b, CreditManyAtomic(b, cs), Total(cs)) && Atomic(b, CreditManyAtomic(b, cs))
  {
    CreditManyPays(b, cs);
  }

  lemma {:induction false} CreditInTurnLaw(b: Ledger, cs: Credits)
    ensures Lawful(b, CreditInTurn(b, cs), Total(cs))
    decreases |cs|
  {
    if cs != [] {
      var m := CreditInTurn(b, cs[..|cs| - 1]);
      CreditInTurnLaw(b, cs[..|cs| - 1]);
      SupplyCredit(m.balances, cs[|cs| - 1].0, cs[|cs| - 1].1);
    }
  }

  lemma CreditInTurnFits(b: Ledger, cs: Credits)
    requires Supply(b) + Total(cs) <= U128_MAX
    ensures CreditInTurn(b, cs).outcome.Ok?
  {
    CreditsFitUnderSupply(b, cs);
    CreditInTurnPays(b, cs);
  }

  lemma BountyLaw(b: Ledger, to: Address, bounty: nat)
    ensures Lawful(b, PayBounty(b, to, bounty), 0)
    ensures Supply(b) <= U128_MAX ==> PayBounty(b, to, bounty).outcome.Ok?
  {
    var paid := Lesser(bounty, Bal(b, TREASURY));
    PaymentLaw(b, TREASURY, to, paid);
    if Supply(b) <= U128_MAX { PaymentsFit(b, TREASURY, to, paid); }
  }

  lemma SlashLaw(b: Ledger, bond: Address, slash: nat)
    requires InsuranceShare(slash) <= slash
    ensures Lawful(b, SlashMoves(b, bond, slash), 0)
  {
    if slash <= Bal(b, bond) {
      var d := DebitUnchecked(b, bond, slash).balances;
      SupplyDebit(b, bond, slash);
      WaterfallTotals(slash);
      CreditInTurnLaw(d, Waterfall(slash));
    }
  }

  lemma StrikeLaw(b: Ledger, submitter: Address)
    ensures Lawful(b, StrikeMove(b, submitter), 0)
    ensures Supply(b) <= U128_MAX ==> StrikeMove(b, submitter).outcome.Ok?
  {
    var slash := LivenessSlash(Bal(b, BOND));
    LivenessSlashIsSmall(Bal(b, BOND));
    ShareFits(slash);
    SlashLaw(b, BOND, slash);
    BountyLaw(SlashMoves(b, BOND, slash).balances, submitter, SnitchBounty(slash));
    if Supply(b) <= U128_MAX { SlashFits(b, BOND, slash); }
  }

  lemma ForfeitLaw(b: Ledger)
    ensures Lawful(b, ForfeitMove(b), 0)
    ensures Supply(b) <= U128_MAX ==> ForfeitMove(b).outcome.Ok?
  {
    ShareFits(Bal(b, SAFETY));
    SlashLaw(b, SAFETY, Bal(b, SAFETY));
    if Supply(b) <= U128_MAX { SlashFits(b, SAFETY, Bal(b, SAFETY)); }
  }

  lemma MintTotal(a: nat, v: nat, t: nat)
    ensures Total(MintCredits(a, v, t)) == a + v + t
  {
    var cs := MintCredits(a, v, t);
    assert cs[..2][..1] == [cs[0]];
    SingleCredit(cs[0], TREASURY);
  }

  lemma SlashedTotal(cs: Credits, insurance: nat, treasury: nat)
    ensures Total(SlashedCredits(cs, insurance, treasury)) == Total(cs) + insurance + treasury
  {
    var tail := [(INSURANCE, insurance), (TREASURY, treasury)];
    SumToSplits(cs, tail, TREASURY);
    assert tail[..1] == [tail[0]];
    SingleCredit(tail[0], TREASURY);
  }

  /** The intents that are one debit followed by one credit. */
  ghost predicate Paying(i: Intent)
  {
    || i.L1Lock? || i.L2BurnProven? || i.DepositSequencerBond? || i.DepositSafetyBond?
    || i.DisburseTreasury? || i.ClaimInsurance?
  }

  ghost function Payer(i: Intent): Address
    requires Paying(i)
  {
    match i
    case L1Lock(user, _, _) => user
    case L2BurnProven(_, _, _, _, _, _) => ESCROW
    case DepositSequencerBond(from, _) => from
    case DepositSafetyBond(from, _) => from
    case DisburseTreasury(_, _) => TREASURY
    case ClaimInsurance(_, _) => INSURANCE
  }

  ghost function Payee(i: Intent): Address
    requires Paying(i)
  {
    match i
    case L1Lock(_, _, _) => ESCROW
    case L2BurnProven(_, to, _, _, _, _) => to
    case DepositSequencerBond(_, _) => BOND
    case DepositSafetyBond(_, _) => SAFETY
    case DisburseTreasury(to, _) => to
    case ClaimInsurance(to, _) => to
  }

  lemma PayingIsPayment(b: Ledger, r: Registries, i: Intent)
    requires Paying(i)
    ensures MoveOf(b, r, i) == DebitThenCredit(b, Payer(i), Payee(i), i.amount)
  {
  }

  /** The other intents that move balances, by the kind of move they make. */
  ghost predicate Staking(i: Intent)
  {
    i.Transfer? || i.Delegate? || i.DepositStake? || i.WithdrawStake? || i.Eject? || i.DistributeRewards?
  }

  ghost predicate Minting(i: Intent)
  {
    i.GenesisAllocation? || i.MintInflation? || i.DistributeSlashedFunds?
  }

  ghost predicate Penalizing(i: Intent)
  {
    i.SlashSequencer? || i.EjectSequencer?
  }

  /** The arms that write as they go, so that a late failure could leave money moved. */
  ghost predicate InPlace(i: Intent)
  {
    Paying(i) || Penalizing(i) || i.DistributeSlashedFunds?
  }

  /** If the arm writes as it goes, the supply and what it mints fit u128. */
  ghost predicate Fits(b: Ledger, i: Intent)
  {
    InPlace(i) ==> Supply(b) + MintOf(i) <= U128_MAX
  }

  ghost predicate MoveLaw(b: Ledger, r: Registries, i: Intent)
  {
    var m := MoveOf(b, r, i);
    Lawful(b, m, MintOf(i)) && (Fits(b, i) ==> Atomic(b, m))
  }

  lemma StakeMoves(b: Ledger, r: Registries, i: Intent)
    requires Staking(i)
    ensures MoveLaw(b, r, i)
  {
    match i
    case Transfer(from, to, x) => TransferLaw(b, from, to, x);
    case Delegate(from, _, x) => TransferLaw(b, from, StakePool(ValidatorRing), x);
    case DepositStake(ring, from, _, x) => TransferLaw(b, from, StakePool(ring), x);
    case WithdrawStake(ring, to, _, x) => TransferLaw(b, StakePool(ring), to, x);
    case Eject(ring, id) => EjectLaw(b, StakePool(ring), Slot(r, ring, id).deposited);
    case DistributeRewards(_, ring, cs) => DrainLaw(b, RewardsPool(ring), cs);
  }

  lemma MintMoves(b: Ledger, r: Registries, i: Intent)
    requires Minting(i)
    ensures MoveLaw(b, r, i)
  {
    match i
    case GenesisAllocation(cs) => CreditManyLaw(b, cs);
    case MintInflation(_, a, v, t) =>
      MintTotal(a, v, t);
      CreditManyLaw(b, MintCredits(a, v, t));
    case DistributeSlashedFunds(cs, insurance, treasury) =>
      SlashedTotal(cs, insurance, treasury);
      CreditInTurnLaw(b, SlashedCredits(cs, insurance, treasury));
      if Fits(b, i) { CreditInTurnFits(b, SlashedCredits(cs, insurance, treasury)); }
  }

  lemma PaymentMoves(b: Ledger, r: Registries, i: Intent)
    requires Paying(i)
    ensures MoveLaw(b, r, i)
  {
    PayingIsPayment(b, r, i);
    PaymentLaw(b, Payer(i), Payee(i), i.amount);
  }

  lemma PenaltyMoves(b: Ledger, r: Registries, i: Intent)
    requires Penalizing(i)
    ensures MoveLaw(b, r, i)
  {
    match i
    case SlashSequencer(reason, id) =>
      if reason == MissedForceInclude {
        if id in r.obligations { StrikeLaw(b, r.obligations[id].submitter); }
      } else {
        ForfeitLaw(b);
      }
    case EjectSequencer(_, ejector) => BountyLaw(b, ejector, EjectorBounty(b));
  }

  /** The move of any intent obeys the supply law, and fails atomically if it fits. */
  lemma MoveSupply(b: Ledger, r: Registries, i: Intent)
    ensures MoveLaw(b, r, i)
  {
    if Staking(i) {
      StakeMoves(b, r, i);
    } else if Minting(i) {
      MintMoves(b, r, i);
    } else if Paying(i) {
      PaymentMoves(b, r, i);
    } else if Penalizing(i) {
      PenaltyMoves(b, r, i);
    }
  }

  /** The attempt leaves no money half-moved for want of room: it is refused, or
      succeeds, or its arm is atomic, or the supply and what it mints fit u128. */
  ghost predicate HasRoom(s: State, i: Intent)
  {
    Gate(s, i) == [] && Apply(s, i).outcome.Err? ==> Fits(s.balances, i)
  }

  /** What an attempt may at most create: nothing if it is refused. */
  ghost function MintLimit(s: State, i: Intent): nat
  {
    if Gate(s, i) == [] then MintOf(i) else 0
  }

  /** One intent that is applied changes the supply by exactly what it mints, with
      no bound on anything; no attempt creates more than it mints, a refused one
      nothing; and a failing one with room moves nothing. */
  lemma IntentSupply(s: State, i: Intent)
    ensures var t := Apply(s, i);
            && (t.outcome.Ok? ==> Supply(t.state.balances) == Supply(s.balances) + MintOf(i))
            && Supply(t.state.balances) <= Supply(s.balances) + MintLimit(s, i)
            && (t.outcome.Err? && HasRoom(s, i) ==> t.state.balances == s.balances)
  {
    ApplyParts(s, i);
    MoveSupply(s.balances, s.reg, i);
  }

  // ----- Whole runs -----

  /** What one operation minted in the state it met. */
  ghost function MintedBy(s: State, op: Op): nat
  {
    if op.Attempt? && Apply(s, op.intent).outcome.Ok? then MintOf(op.intent) else 0
  }

  /** What a run minted. */
  ghost function Minted(s: State, ops: seq<Op>): nat
    decreases |ops|
  {
    if ops == [] then 0
    else Minted(s, ops[..|ops| - 1]) + MintedBy(Run(s, ops[..|ops| - 1]), ops[|ops| - 1])
  }

  /** What the attempts of a run that got past their gates would mint. */
  ghost function LetThrough(s: State, ops: seq<Op>): nat
    decreases |ops|
  {
    if ops == [] then 0
    else
      var init, op := ops[..|ops| - 1], ops[|ops| - 1];
      LetThrough(s, init) + if op.Attempt? then MintLimit(Run(s, init), op.intent) else 0
  }

  /** Every attempt of the run has room in the state it meets. */
  ghost predicate RoomThroughout(s: State, ops: seq<Op>)
    decreases |ops|
  {
    ops == [] ||
    var init, op := ops[..|ops| - 1], ops[|ops| - 1];
    RoomThroughout(s, init) && (op.Attempt? ==> HasRoom(Run(s, init), op.intent))
  }

  /** No run whatsoever creates more than the mints it let through. */
  lemma {:induction false} RunNeverCreates(s: State, ops: seq<Op>)
    ensures Supply(Run(s, ops).balances) <= Supply(s.balances) + LetThrough(s, ops)
    decreases |ops|
  {
    if ops != [] {
      var init, op := ops[..|ops| - 1], ops[|ops| - 1];
      RunNeverCreates(s, init);
      if op.Attempt? {
        IntentSupply(Run(s, init), op.intent);
      }
    }
  }

  // ----- Without the bound -----

  /** The comment at the lock arm says a failing escrow credit leaves no trace.
      It does: the user's debit stays and the supply shrinks. */
  lemma FailedLockDestroysValue()
    ensures var s := State(map[User(1) := 7, ESCROW := U128_MAX], EMPTY, 0);
            var t := Apply(s, L1Lock(User(1), 7, Native));
            && t.outcome == Err(DistributionOverflow(ESCROW))
            && t.state == s.(balances := map[ESCROW := U128_MAX])
            && Supply(t.state.balances) == Supply(s.balances) - 7
  {
    var b: Ledger := map[User(1) := 7, ESCROW := U128_MAX];
    SupplyDebit(b, User(1), 7);
    assert Debit(b, User(1), 7) == map[ESCROW := U128_MAX];
  }
}
