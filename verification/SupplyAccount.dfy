/** The supply account that closes over every run: what was there and what was
    minted is what is there and what failing arms destroyed. */
module SupplyAccount {
  import opened Balances
  import opened Registries
  import opened Intents
  import opened Moves
  import opened SupplyLedger
  import opened RegistryFrame

  // ----- What a failing arm destroys, read off the balances it meets -----

  /** Crediting `x` to `a` is refused for leaving u128. */
  predicate CreditFails(b: Ledger, a: Address, x: nat)
  {
    x > 0 && Bal(b, a) + x > U128_MAX
  }

  /** The debit passes and the credit does not. */
  predicate PaymentFails(b: Ledger, from: Address, to: Address, x: nat)
  {
    0 < x <= Bal(b, from) && (if from == to then Bal(b, to) else Bal(b, to) + x) > U128_MAX
  }

  function PaymentLoss(b: Ledger, from: Address, to: Address, x: nat): nat
  {
    if PaymentFails(b, from, to, x) then x else 0
  }

  /** A slash loses everything if the insurance pool is full and the treasury's
      share if only the treasury is. */
  function SlashLoss(b: Ledger, slash: nat): nat
  {
    ShareFits(slash);
    if CreditFails(b, INSURANCE, InsuranceShare(slash)) then slash
    else if CreditFails(b, TREASURY, slash - InsuranceShare(slash)) then slash - InsuranceShare(slash)
    else 0
  }

  /** A strike loses what its slash loses, or else the bounty that its submitter
      has no room for. */
  function StrikeLoss(b: Ledger, submitter: Address): nat
  {
    var slash := LivenessSlash(Bal(b, BOND));
    if SlashLoss(b, slash) > 0 then SlashLoss(b, slash)
    else if !submitter.Reserved? && CreditFails(b, submitter, SnitchBounty(slash)) then SnitchBounty(slash)
    else 0
  }

  ghost function MoveLoss(b: Ledger, r: Registries, i: Intent): nat
  {
    match i
    case SlashSequencer(reason, id) =>
      (match reason
       case MissedForceInclude => if id in r.obligations then StrikeLoss(b, r.obligations[id].submitter) else 0
       case Downtime => 0
       case _ => SlashLoss(b, Bal(b, SAFETY)))
    case EjectSequencer(_, ejector) => PaymentLoss(b, TREASURY, ejector, Lesser(EjectorBounty(b), Bal(b, TREASURY)))
    case _ => if Paying(i) then PaymentLoss(b, Payer(i), Payee(i), i.amount) else 0
  }

  // ----- What a failing distribution has minted before it stops -----

  /** How many credits from the front fit together. */
  ghost function FittingPrefix(b: Ledger, cs: Credits): (k: nat)
    ensures k <= |cs|
    decreases |cs|
  {
    if cs == [] || CreditsFit(b, cs) then |cs| else FittingPrefix(b, cs[..|cs| - 1])
  }

  ghost function PartMint(b: Ledger, i: Intent): nat
  {
    if i.DistributeSlashedFunds? then
      var all := SlashedCredits(i.counterparties, i.insuranceShare, i.treasuryShare);
      Total(all[..FittingPrefix(b, all)])
    else 0
  }

  // ----- One move -----

  lemma PaymentAccount(b: Ledger, from: Address, to: Address, x: nat)
    ensures Supply(DebitThenCredit(b, from, to, x).balances) + PaymentLoss(b, from, to, x) == Supply(b)
  {
    DebitThenCreditPays(b, from, to, x);
    if x <= Bal(b, from) { SupplyDebit(b, from, x); }
  }

  /** The two credits of a slash, one after the other. */
  function InsuranceThenTreasury(d: Ledger, slash: nat): Moved
    requires InsuranceShare(slash) <= slash
  {
    var first := CreditUnchecked(d, INSURANCE, InsuranceShare(slash));
    if first.outcome.Err? then first else CreditUnchecked(first.balances, TREASURY, slash - InsuranceShare(slash))
  }

  lemma WaterfallInTurn(d: Ledger, slash: nat)
    requires InsuranceShare(slash) <= slash
    ensures CreditInTurn(d, Waterfall(slash)) == InsuranceThenTreasury(d, slash)
  {
    var w := Waterfall(slash);
    var one: Credits := [w[0]];
    assert w[..1] == one && one[..0] == [];
    assert CreditInTurn(d, one) == CreditUnchecked(d, w[0].0, w[0].1);
  }

  lemma WaterfallFails(d: Ledger, slash: nat)
    requires InsuranceShare(slash) <= slash
    ensures InsuranceThenTreasury(d, slash).outcome.Ok? <==> SlashLoss(d, slash) == 0
  {
  }

  lemma WaterfallSupply(d: Ledger, slash: nat)
    requires InsuranceShare(slash) <= slash
    ensures Supply(InsuranceThenTreasury(d, slash).balances) + SlashLoss(d, slash) == Supply(d) + slash
  {
    var first := CreditUnchecked(d, INSURANCE, InsuranceShare(slash));
    SupplyCredit(d, INSURANCE, InsuranceShare(slash));
    SupplyCredit(first.balances, TREASURY, slash - InsuranceShare(slash));
  }

  lemma WaterfallAccount(d: Ledger, slash: nat)
    requires InsuranceShare(slash) <= slash
    ensures Supply(CreditInTurn(d, Waterfall(slash)).balances) + SlashLoss(d, slash) == Supply(d) + slash
    ensures CreditInTurn(d, Waterfall(slash)).outcome.Ok? <==> SlashLoss(d, slash) == 0
  {
    WaterfallInTurn(d, slash);
    WaterfallFails(d, slash);
    WaterfallSupply(d, slash);
  }

  lemma SlashAccount(b: Ledger, bond: Address, slash: nat)
    requires InsuranceShare(slash) <= slash <= Bal(b, bond) && bond != INSURANCE && bond != TREASURY
    ensures Supply(SlashMoves(b, bond, slash).balances) + SlashLoss(b, slash) == Supply(b)
    ensures SlashMoves(b, bond, slash).outcome.Ok? <==> SlashLoss(b, slash) == 0
  {
    var d := DebitUnchecked(b, bond, slash).balances;
    SupplyDebit(b, bond, slash);
    assert SlashLoss(d, slash) == SlashLoss(b, slash);
    WaterfallAccount(d, slash);
  }

  lemma BountyAccount(b: Ledger, to: Address, bounty: nat)
    requires bounty <= Bal(b, TREASURY) && to != TREASURY
    ensures Supply(PayBounty(b, to, bounty).balances) + (if CreditFails(b, to, bounty) then bounty else 0) == Supply(b)
  {
    PaymentAccount(b, TREASURY, to, bounty);
  }

  lemma StrikeAccount(b: Ledger, submitter: Address)
    ensures Supply(StrikeMove(b, submitter).balances) + StrikeLoss(b, submitter) == Supply(b)
  {
    var slash := LivenessSlash(Bal(b, BOND));
    LivenessSlashIsSmall(Bal(b, BOND));
    ShareFits(slash);
    SlashAccount(b, BOND, slash);
    var m := SlashMoves(b, BOND, slash);
    if m.outcome.Ok? && !submitter.Reserved? {
      SlashPays(b, BOND, slash);
      TreasuryShareCoversBounty(slash);
      BountyAccount(m.balances, submitter, SnitchBounty(slash));
    }
  }

  /** Credits in turn add exactly those that fit together from the front. */
  lemma {:induction false} InTurnAccount(b: Ledger, cs: Credits)
    ensures Supply(CreditInTurn(b, cs).balances) == Supply(b) + Total(cs[..FittingPrefix(b, cs)])
    decreases |cs|
  {
    CreditInTurnPays(b, cs);
    CreditInTurnLaw(b, cs);
    assert cs[..|cs|] == cs;
    if cs != [] && !CreditsFit(b, cs) {
      var init := cs[..|cs| - 1];
      InTurnAccount(b, init);
      assert init[..FittingPrefix(b, init)] == cs[..FittingPrefix(b, cs)];
    }
  }

  /** What is missing after a move is its loss, what is new is what it minted, in
      full or in part. */
  ghost predicate Accounted(b: Ledger, r: Registries, i: Intent)
  {
    var m := MoveOf(b, r, i);
    Supply(m.balances) + MoveLoss(b, r, i) == Supply(b) + if m.outcome.Ok? then MintOf(i) else PartMint(b, i)
  }

  lemma PenaltyAccount(b: Ledger, r: Registries, i: Intent)
    requires Penalizing(i)
    ensures Accounted(b, r, i)
  {
    match i
    case SlashSequencer(reason, id) =>
      if reason == MissedForceInclude {
        if id in r.obligations { StrikeAccount(b, r.obligations[id].submitter); }
      } else if reason != Downtime {
        ShareFits(Bal(b, SAFETY));
        SlashAccount(b, SAFETY, Bal(b, SAFETY));
      }
    case EjectSequencer(_, ejector) =>
      PaymentAccount(b, TREASURY, ejector, Lesser(EjectorBounty(b), Bal(b, TREASURY)));
  }

  lemma PayingAccount(b: Ledger, r: Registries, i: Intent)
    requires Paying(i)
    ensures Accounted(b, r, i)
  {
    PayingIsPayment(b, r, i);
    PaymentAccount(b, Payer(i), Payee(i), i.amount);
  }

  lemma DistributionAccount(b: Ledger, r: Registries, i: Intent)
    requires i.DistributeSlashedFunds?
    ensures Accounted(b, r, i)
  {
    MintMoves(b, r, i);
    InTurnAccount(b, SlashedCredits(i.counterparties, i.insuranceShare, i.treasuryShare));
  }

  /** Every other arm that moves money is atomic. */
  lemma AtomicAccount(b: Ledger, r: Registries, i: Intent)
    requires !InPlace(i)
    ensures Accounted(b, r, i)
  {
    MoveSupply(b, r, i);
  }

  lemma MoveAccount(b: Ledger, r: Registries, i: Intent)
    ensures Accounted(b, r, i)
  {
    if Penalizing(i) {
      PenaltyAccount(b, r, i);
    } else if Paying(i) {
      PayingAccount(b, r, i);
    } else if i.DistributeSlashedFunds? {
      DistributionAccount(b, r, i);
    } else {
      AtomicAccount(b, r, i);
    }
  }

  // ----- One attempt -----

  /** What an attempt destroys: nothing if it is refused at a gate. */
  ghost function Loss(s: State, i: Intent): nat
  {
    if Gate(s, i) == [] then MoveLoss(s.balances, s.reg, i) else 0
  }

  /** What a failing attempt has minted all the same. */
  ghost function HalfMint(s: State, i: Intent): nat
  {
    if Gate(s, i) == [] && Apply(s, i).outcome.Err? then PartMint(s.balances, i) else 0
  }

  lemma IntentAccount(s: State, i: Intent)
    ensures Supply(Apply(s, i).state.balances) + Loss(s, i)
         == Supply(s.balances) + MintedBy(s, Attempt(i)) + HalfMint(s, i)
  {
    ApplyParts(s, i);
    MoveAccount(s.balances, s.reg, i);
  }

  /** An attempt with room destroys nothing and mints nothing by halves. */
  lemma RoomMeansNoLoss(s: State, i: Intent)
    requires HasRoom(s, i)
    ensures Loss(s, i) == 0 && HalfMint(s, i) == 0
  {
    IntentAccount(s, i);
    IntentSupply(s, i);
    LossOrHalf(s, i);
  }

  lemma LossOrHalf(s: State, i: Intent)
    ensures Loss(s, i) == 0 || HalfMint(s, i) == 0
  {
  }

  // ----- Whole runs -----

  ghost function Destroyed(s: State, ops: seq<Op>): nat
    decreases |ops|
  {
    if ops == [] then 0
    else
      var init, op := ops[..|ops| - 1], ops[|ops| - 1];
      Destroyed(s, init) + if op.Attempt? then Loss(Run(s, init), op.intent) else 0
  }

  ghost function HalfMinted(s: State, ops: seq<Op>): nat
    decreases |ops|
  {
    if ops == [] then 0
    else
      var init, op := ops[..|ops| - 1], ops[|ops| - 1];
      HalfMinted(s, init) + if op.Attempt? then HalfMint(Run(s, init), op.intent) else 0
  }

  /** The exact account of every run, from any state and without any bound. */
  lemma {:induction false} RunSupply(s: State, ops: seq<Op>)
    ensures Supply(Run(s, ops).balances) + Destroyed(s, ops)
         == Supply(s.balances) + Minted(s, ops) + HalfMinted(s, ops)
    decreases |ops|
  {
    if ops != [] {
      var init, op := ops[..|ops| - 1], ops[|ops| - 1];
      RunSupply(s, init);
      if op.Attempt? {
        IntentAccount(Run(s, init), op.intent);
      }
    }
  }

  /** While the failing attempts have room nothing is destroyed or minted by halves,
      so the supply moves by exactly what was minted. */
  lemma {:induction false} NothingDestroyed(s: State, ops: seq<Op>)
    requires RoomThroughout(s, ops)
    ensures Destroyed(s, ops) == 0 && HalfMinted(s, ops) == 0
    ensures Supply(Run(s, ops).balances) == Supply(s.balances) + Minted(s, ops)
    decreases |ops|
  {
    RunSupply(s, ops);
    if ops != [] {
      var init, op := ops[..|ops| - 1], ops[|ops| - 1];
      NothingDestroyed(s, init);
      if op.Attempt? {
        RoomMeansNoLoss(Run(s, init), op.intent);
      }
    }
  }
}
