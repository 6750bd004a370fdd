/** The substrate interface promises that a failing intent leaves the state as it
    was.  The code keeps that promise for most arms and breaks it in the ones
    that write before their last check.  Here is exactly when. */
module Atomicity {
  import opened Balances
  import opened Registries
  import opened Intents
  import opened Moves
  import opened SupplyLedger
  import opened RegistryFrame
  import opened Bridge

  /** The intent failed and left something behind. */
  ghost predicate Torn(s: State, i: Intent)
  {
    Apply(s, i).outcome.Err? && Apply(s, i).state != s
  }

  /** Paying `x` to `to` would leave u128. */
  predicate Overflows(b: Ledger, to: Address, x: nat)
  {
    Bal(b, to) + x > U128_MAX
  }

  /** A debit-then-credit whose debit passes and whose credit does not. */
  predicate PaymentTears(b: Ledger, from: Address, to: Address, x: nat)
  {
    from != to && 0 < x <= Bal(b, from) && Overflows(b, to, x)
  }

  /** The 70/30 split of a slash overflows one of its two accounts. */
  predicate WaterfallOverflows(b: Ledger, slash: nat)
    requires InsuranceShare(slash) <= slash
  {
    Overflows(b, INSURANCE, InsuranceShare(slash)) || Overflows(b, TREASURY, slash - InsuranceShare(slash))
  }

  /** The first nonzero credit of `cs` is at `k`. */
  ghost predicate LeadsAt(cs: Credits, k: nat)
  {
    k < |cs| && cs[k].1 > 0 && forall j | 0 <= j < k :: cs[j].1 == 0
  }

  /** The first nonzero credit of the list fits. */
  ghost predicate FirstCreditFits(b: Ledger, cs: Credits)
  {
    exists k: nat :: LeadsAt(cs, k) && !Overflows(b, cs[k].0, cs[k].1)
  }

  /** The ways a strike against the bond can fail. */
  ghost predicate StrikeOverflows(b: Ledger, submitter: Address)
  {
    var slash := LivenessSlash(Bal(b, BOND));
    ShareFits(slash);
    || WaterfallOverflows(b, slash)
    || (!submitter.Reserved? && Overflows(b, submitter, SnitchBounty(slash)))
  }

  ghost predicate ForfeitOverflows(b: Ledger)
  {
    ShareFits(Bal(b, SAFETY));
    WaterfallOverflows(b, Bal(b, SAFETY))
  }

  /** The guards under which a failing intent leaves a trace. */
  ghost predicate TearsOn(s: State, i: Intent)
  {
    Gate(s, i) == [] && MoveTears(s.balances, s.reg, i)
  }

  ghost predicate MoveTears(b: Ledger, r: Registries, i: Intent)
  {
    match i
    case L2BurnProven(_, to, x, _, _, _) => x > 0 && (Bal(b, ESCROW) < x || Overflows(b, to, x))
    case SlashSequencer(reason, id) =>
      (match reason
       case MissedForceInclude => id in r.obligations && StrikeOverflows(b, r.obligations[id].submitter)
       case Downtime => false
       case _ => ForfeitOverflows(b))
    case EjectSequencer(_, ejector) => Overflows(b, ejector, Lesser(EjectorBounty(b), Bal(b, TREASURY)))
    case DistributeSlashedFunds(cs, insurance, treasury) =>
      var all := SlashedCredits(cs, insurance, treasury);
      !CreditsFit(b, all) && FirstCreditFits(b, all)
    case _ => Paying(i) && PaymentTears(b, Payer(i), Payee(i), i.amount)
  }

  // ----- What a failure can leave: an early registry entry, or moved money -----

  /** The arm writes a registry entry before it moves money. */
  ghost predicate WritesEarly(i: Intent)
  {
    || (i.L2BurnProven? && i.amount > 0) || i.EjectSequencer?
    || (i.SlashSequencer? && i.reason != Downtime)
  }

  lemma EarlyEntryIsNew(s: State, i: Intent)
    requires Gate(s, i) == [] && WritesEarly(i)
    ensures Written(s.reg, s.height, i, false) != s.reg
  {
    var after := Written(s.reg, s.height, i, false);
    if i.L2BurnProven? {
      assert BurnId(i) in after.nullifiers;
    } else if i.EjectSequencer? {
      assert i.obligation in after.ejections;
    } else if Strikes(i) {
      assert after.obligations[i.offense].status == Slashed;
    } else {
      assert i.offense in after.offenses;
    }
  }

  lemma NoEarlyEntry(r: Registries, height: nat, i: Intent)
    requires !WritesEarly(i)
    ensures Written(r, height, i, false) == r
  {
  }

  lemma TornMeans(s: State, i: Intent)
    ensures var m := MoveOf(s.balances, s.reg, i);
            Torn(s, i) <==> Gate(s, i) == [] && m.outcome.Err? && (WritesEarly(i) || m.balances != s.balances)
  {
    ApplyParts(s, i);
    if Gate(s, i) == [] {
      if WritesEarly(i) { EarlyEntryIsNew(s, i); } else { NoEarlyEntry(s.reg, s.height, i); }
    }
  }

  lemma SoundBounds(b: Ledger, a: Address)
    requires Sound(b)
    ensures Bal(b, a) <= U128_MAX
  {
  }

  lemma DebitChanges(b: Ledger, a: Address, x: nat)
    requires 0 < x <= Bal(b, a)
    ensures Debit(b, a, x) != b
  {
    assert Bal(Debit(b, a, x), a) != Bal(b, a);
  }

  lemma PaymentTearsIff(b: Ledger, from: Address, to: Address, x: nat)
    requires Sound(b)
    ensures var m := DebitThenCredit(b, from, to, x);
            m.outcome.Err? && m.balances != b <==> PaymentTears(b, from, to, x)
  {
    DebitThenCreditPays(b, from, to, x);
    SoundBounds(b, to);
    if 0 < x <= Bal(b, from) { DebitChanges(b, from, x); }
  }

  /** The move of an intent past its gates tears under its guard and no other. */
  ghost predicate TearsExactly(b: Ledger, r: Registries, i: Intent)
  {
    var m := MoveOf(b, r, i);
    m.outcome.Err? && (WritesEarly(i) || m.balances != b) <==> MoveTears(b, r, i)
  }

  lemma PaymentsTear(b: Ledger, r: Registries, i: Intent)
    requires Sound(b) && Paying(i) && !i.L2BurnProven?
    ensures TearsExactly(b, r, i)
  {
    PayingIsPayment(b, r, i);
    PaymentTearsIff(b, Payer(i), Payee(i), i.amount);
  }

  lemma BurnTears(b: Ledger, r: Registries, i: Intent)
    requires i.L2BurnProven? && i.recipient.User?
    ensures TearsExactly(b, r, i)
  {
    DebitThenCreditPays(b, ESCROW, i.recipient, i.amount);
  }

  lemma WaterfallFits(b: Ledger, bond: Address, slash: nat)
    requires Sound(b) && InsuranceShare(slash) <= slash <= Bal(b, bond) && bond != INSURANCE && bond != TREASURY
    ensures SlashMoves(b, bond, slash).outcome.Err? <==> WaterfallOverflows(b, slash)
  {
    SlashPays(b, bond, slash);
    WaterfallTotals(slash);
    SoundBounds(b, INSURANCE);
    SoundBounds(b, TREASURY);
    if slash > 0 {
      assert CreditsFit(Debit(b, bond, slash), Waterfall(slash)) <==> !WaterfallOverflows(b, slash) by {
        if CreditsFit(Debit(b, bond, slash), Waterfall(slash)) {
          assert SumTo(Waterfall(slash), INSURANCE) == InsuranceShare(slash);
          assert SumTo(Waterfall(slash), TREASURY) == slash - InsuranceShare(slash);
        }
      }
    }
  }

  /** What the two transfers of a strike fail on. */
  lemma StrikeFails(b: Ledger, who: Address)
    requires Sound(b) && !who.Reserved?
    ensures var slash := LivenessSlash(Bal(b, BOND));
            && InsuranceShare(slash) <= slash
            && (SlashMoves(b, BOND, slash).outcome.Ok? ==>
                  (PayBounty(SlashMoves(b, BOND, slash).balances, who, SnitchBounty(slash)).outcome.Err?
                   <==> Overflows(b, who, SnitchBounty(slash))))
  {
    var bond := Bal(b, BOND);
    var slash := LivenessSlash(bond);
    LivenessSlashIsSmall(bond);
    ShareFits(slash);
    SlashPays(b, BOND, slash);
    TreasuryShareCoversBounty(slash);
    SoundBounds(b, who);
    BountyPays(SlashMoves(b, BOND, slash).balances, who, SnitchBounty(slash));
  }

  lemma StrikeTears(b: Ledger, who: Address)
    requires Sound(b)
    ensures StrikeMove(b, who).outcome.Err? <==> StrikeOverflows(b, who)
  {
    var slash := LivenessSlash(Bal(b, BOND));
    LivenessSlashIsSmall(Bal(b, BOND));
    ShareFits(slash);
    WaterfallFits(b, BOND, slash);
    if !who.Reserved? { StrikeFails(b, who); }
  }

  lemma SlashTears(b: Ledger, r: Registries, i: Intent)
    requires Sound(b) && i.SlashSequencer?
    ensures TearsExactly(b, r, i)
  {
    if i.reason == MissedForceInclude {
      if i.offense in r.obligations { StrikeTears(b, r.obligations[i.offense].submitter); }
    } else if i.reason != Downtime {
      ShareFits(Bal(b, SAFETY));
      WaterfallFits(b, SAFETY, Bal(b, SAFETY));
    }
  }

  lemma EjectSequencerTears(b: Ledger, r: Registries, i: Intent)
    requires Sound(b) && i.EjectSequencer? && i.ejector.User?
    ensures TearsExactly(b, r, i)
  {
    SoundBounds(b, i.ejector);
    BountyPays(b, i.ejector, EjectorBounty(b));
  }

  lemma {:induction false} InTurnSkipsZeros(b: Ledger, cs: Credits)
    requires forall j | 0 <= j < |cs| :: cs[j].1 == 0
    ensures CreditInTurn(b, cs) == Moved(b, Ok)
    decreases |cs|
  {
    if cs != [] { InTurnSkipsZeros(b, cs[..|cs| - 1]); }
  }

  lemma {:induction false} LeaderExists(cs: Credits) returns (k: nat)
    requires exists j :: 0 <= j < |cs| && cs[j].1 != 0
    ensures LeadsAt(cs, k)
    decreases |cs|
  {
    var n := |cs| - 1;
    if exists j :: 0 <= j < n && cs[j].1 != 0 {
      var j :| 0 <= j < n && cs[j].1 != 0;
      assert cs[..n][j].1 != 0;
      k := LeaderExists(cs[..n]);
      assert forall j | 0 <= j < n :: cs[..n][j] == cs[j];
    } else {
      k := n;
    }
  }

  /** The leading credit decides: if it does not fit nothing happens, and if it
      fits its recipient is better off however the rest goes. */
  lemma LeaderDecides(b: Ledger, cs: Credits, k: nat)
    requires LeadsAt(cs, k)
    ensures Overflows(b, cs[k].0, cs[k].1) ==> CreditInTurn(b, cs).balances == b
    ensures !Overflows(b, cs[k].0, cs[k].1) ==> CreditInTurn(b, cs).balances != b
  {
    var (a, x) := cs[k];
    InTurnSkipsZeros(b, cs[..k]);
    assert cs[..k + 1][..k] == cs[..k];
    var m := CreditInTurn(b, cs[..k + 1]);
    assert m == CreditUnchecked(b, a, x);
    if Overflows(b, a, x) {
      InTurnStops(b, cs, k + 1);
    } else {
      InTurnGrows(b, cs, k + 1, a);
    }
  }

  lemma {:induction false} InTurnGrows(b: Ledger, cs: Credits, k: nat, a: Address)
    requires k <= |cs|
    ensures Bal(CreditInTurn(b, cs[..k]).balances, a) <= Bal(CreditInTurn(b, cs).balances, a)
    decreases |cs|
  {
    if k < |cs| {
      var init := cs[..|cs| - 1];
      assert init[..k] == cs[..k];
      InTurnGrows(b, init, k, a);
    } else {
      assert cs[..k] == cs;
    }
  }

  /** A list of credits leaves a trace exactly when its first nonzero credit fits. */
  lemma InTurnTears(b: Ledger, cs: Credits)
    ensures CreditInTurn(b, cs).balances != b <==> FirstCreditFits(b, cs)
  {
    if exists j :: 0 <= j < |cs| && cs[j].1 != 0 {
      var k := LeaderExists(cs);
      LeaderDecides(b, cs, k);
      LeaderIsUnique(b, cs, k);
    } else {
      InTurnSkipsZeros(b, cs);
    }
  }

  lemma LeadersMeet(cs: Credits, j: nat, k: nat)
    requires LeadsAt(cs, j) && LeadsAt(cs, k)
    ensures j == k
  {
  }

  lemma LeaderIsUnique(b: Ledger, cs: Credits, k: nat)
    requires LeadsAt(cs, k)
    ensures FirstCreditFits(b, cs) <==> !Overflows(b, cs[k].0, cs[k].1)
  {
    forall j: nat | LeadsAt(cs, j) ensures j == k { LeadersMeet(cs, j, k); }
  }

  lemma DistributeTears(b: Ledger, r: Registries, i: Intent)
    requires i.DistributeSlashedFunds?
    ensures TearsExactly(b, r, i)
  {
    var all := SlashedCredits(i.counterparties, i.insuranceShare, i.treasuryShare);
    InTurnTears(b, all);
    CreditInTurnPays(b, all);
  }

  lemma BatchesAreAtomic(b: Ledger, r: Registries, i: Intent)
    requires i.GenesisAllocation? || i.MintInflation? || i.DistributeRewards? || i.Eject?
    ensures TearsExactly(b, r, i)
  {
    match i
    case GenesisAllocation(cs) => CreditManyPays(b, cs);
    case MintInflation(_, a, v, t) => CreditManyPays(b, MintCredits(a, v, t));
    case DistributeRewards(_, ring, cs) => DrainPays(b, RewardsPool(ring), cs);
    case Eject(ring, id) =>
      var drained := Lesser(Slot(r, ring, id).deposited, Bal(b, StakePool(ring)));
      ShareFits(drained);
      DrainPays(b, StakePool(ring), Waterfall(drained));
  }

  lemma TransfersAreAtomic(b: Ledger, r: Registries, i: Intent)
    requires i.Transfer? || i.Delegate? || i.DepositStake? || i.WithdrawStake?
    ensures TearsExactly(b, r, i)
  {
  }

  lemma MoveTearsExactly(s: State, i: Intent)
    requires Sound(s.balances) && Gate(s, i) == []
    ensures TearsExactly(s.balances, s.reg, i)
  {
    if i.SlashSequencer? {
      SlashTears(s.balances, s.reg, i);
    } else if i.EjectSequencer? {
      EjectSequencerTears(s.balances, s.reg, i);
    } else if i.DistributeSlashedFunds? {
      DistributeTears(s.balances, s.reg, i);
    } else if i.L2BurnProven? {
      if i.amount > 0 { BurnTears(s.balances, s.reg, i); }
    } else if Paying(i) {
      PaymentsTear(s.balances, s.reg, i);
    } else if i.Transfer? || i.Delegate? || i.DepositStake? || i.WithdrawStake? {
      TransfersAreAtomic(s.balances, s.reg, i);
    } else if Staking(i) || Minting(i) {
      BatchesAreAtomic(s.balances, s.reg, i);
    }
  }

  /** A failing intent leaves a trace exactly under these guards. */
  lemma AtomicityIff(s: State, i: Intent)
    requires Sound(s.balances)
    ensures Torn(s, i) <==> TearsOn(s, i)
  {
    TornMeans(s, i);
    if Gate(s, i) == [] {
      MoveTearsExactly(s, i);
    }
  }

  /** While the supply fits u128 there is one exception left: a claimed burn that
      the escrow cannot cover keeps its nullifier. */
  lemma OnlyUncoveredBurnsTear(s: State, i: Intent)
    requires Sound(s.balances) && (Gate(s, i) == [] ==> Fits(s.balances, i))
    ensures Torn(s, i) <==>
              i.L2BurnProven? && ClaimsBurn(s, Attempt(i), BurnId(i)) && Bal(s.balances, ESCROW) < i.amount
    ensures Torn(s, i) ==>
              Apply(s, i).state == s.(reg := s.reg.(nullifiers := s.reg.nullifiers + {BurnId(i)}))
  {
    AtomicityIff(s, i);
    if i.L2BurnProven? {
      UncoveredBurn(s, i);
    } else if Gate(s, i) == [] {
      NothingElseTears(s.balances, s.reg, i);
    }
  }

  lemma UncoveredBurn(s: State, i: Intent)
    requires i.L2BurnProven? && (Gate(s, i) == [] ==> Supply(s.balances) <= U128_MAX)
    ensures Gate(s, i) == [] && i.amount > 0 <==> ClaimsBurn(s, Attempt(i), BurnId(i))
    ensures Gate(s, i) == [] && i.amount > 0 ==>
              !(i.amount <= Bal(s.balances, ESCROW) && Overflows(s.balances, i.recipient, i.amount))
    ensures Torn(s, i) ==>
              Apply(s, i).state == s.(reg := s.reg.(nullifiers := s.reg.nullifiers + {BurnId(i)}))
  {
    ApplyParts(s, i);
    if Gate(s, i) == [] {
      PaymentsFit(s.balances, ESCROW, i.recipient, i.amount);
      SupplyBounds(s.balances, ESCROW, i.recipient);
    }
  }

  lemma NoPaymentTears(b: Ledger, from: Address, to: Address, x: nat)
    requires Supply(b) <= U128_MAX
    ensures !PaymentTears(b, from, to, x)
  {
    SupplyBounds(b, from, to);
  }

  lemma NothingElseTears(b: Ledger, r: Registries, i: Intent)
    requires Fits(b, i) && !i.L2BurnProven? && (i.EjectSequencer? ==> i.ejector.User?)
    ensures !MoveTears(b, r, i)
  {
    if i.EjectSequencer? {
      SupplyBounds(b, TREASURY, i.ejector);
    } else if i.DistributeSlashedFunds? {
      SlashedTotal(i.counterparties, i.insuranceShare, i.treasuryShare);
      CreditsFitUnderSupply(b, SlashedCredits(i.counterparties, i.insuranceShare, i.treasuryShare));
    } else if i.SlashSequencer? {
      NoSlashTears(b, r, i);
    } else if Paying(i) {
      NoPaymentTears(b, Payer(i), Payee(i), i.amount);
    }
  }

  lemma NoWaterfallOverflow(b: Ledger, bond: Address, slash: nat)
    requires Supply(b) <= U128_MAX && InsuranceShare(slash) <= slash <= Bal(b, bond)
    requires bond != INSURANCE && bond != TREASURY
    ensures !WaterfallOverflows(b, slash)
  {
    SupplyBounds(b, bond, INSURANCE);
    SupplyBounds(b, bond, TREASURY);
  }

  lemma NoSlashTears(b: Ledger, r: Registries, i: Intent)
    requires Supply(b) <= U128_MAX && i.SlashSequencer?
    ensures !MoveTears(b, r, i)
  {
    var slash := LivenessSlash(Bal(b, BOND));
    LivenessSlashIsSmall(Bal(b, BOND));
    ShareFits(slash);
    ShareFits(Bal(b, SAFETY));
    TreasuryShareCoversBounty(slash);
    NoWaterfallOverflow(b, BOND, slash);
    NoWaterfallOverflow(b, SAFETY, Bal(b, SAFETY));
    if i.offense in r.obligations {
      SupplyBounds(b, BOND, r.obligations[i.offense].submitter);
    }
  }
}
