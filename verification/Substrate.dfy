/** The in-memory substrate (substrate.rs): three fields changed in place by the
    balance helpers and by `ApplyIntent`.  Every method is proved to do exactly
    what the functions of module Intents say. */
module Substrate {
  import opened Balances
  import opened Registries
  import opened Intents
  import opened Moves

  class InMemorySubstrate {
    var balances: Ledger
    var reg: Registries
    var height: nat

    ghost predicate Valid()
      reads this
    {
      Sound(balances)
    }

    ghost function Abs(): State
      reads this
    {
      State(balances, reg, height)
    }

    constructor ()
      ensures Valid() && Abs() == State(map[], EMPTY, 0)
    {
      balances := map[];
      reg := EMPTY;
      height := 0;
    }

    method SetHeight(h: nat)
      modifies this`height
      ensures height == h
    {
      height := h;
    }

    // ----- Balance helpers -----

    method CreditUncheckedAt(a: Address, x: nat) returns (r: Outcome)
      requires Valid()
      modifies this`balances
      ensures Valid()
      ensures Moved(balances, r) == CreditUnchecked(old(balances), a, x)
    {
      if x == 0 { return Ok; }
      var now := Bal(balances, a) + x;
      if now > U128_MAX { return Err(DistributionOverflow(a)); }
      balances := balances[a := now];
      r := Ok;
    }

    method DebitUncheckedAt(a: Address, x: nat) returns (r: Outcome)
      requires Valid()
      modifies this`balances
      ensures Valid()
      ensures Moved(balances, r) == DebitUnchecked(old(balances), a, x)
    {
      if x == 0 { return Ok; }
      var source := Bal(balances, a);
      if source < x { return Err(InsufficientBalance(a, source, x)); }
      if source - x == 0 {
        balances := balances - {a};
      } else {
        balances := balances[a := source - x];
      }
      r := Ok;
    }

    method TransferInternalBetween(from: Address, to: Address, x: nat) returns (r: Outcome)
      requires Valid()
      modifies this`balances
      ensures Valid()
      ensures Moved(balances, r) == TransferInternal(old(balances), from, to, x)
    {
      if x == 0 { return Ok; }
      var source := Bal(balances, from);
      if source < x { return Err(InsufficientBalance(from, source, x)); }
      if from == to { return Ok; }
      var dest := Bal(balances, to);
      if dest + x > U128_MAX { return Err(DistributionOverflow(to)); }
      if source - x == 0 {
        balances := balances - {from};
      } else {
        balances := balances[from := source - x];
      }
      balances := balances[to := dest + x];
      r := Ok;
    }

    /** Stage every new balance first, touch the map only if none overflows. */
    method CreditMany(cs: Credits) returns (r: Outcome)
      requires Valid()
      modifies this`balances
      ensures Valid()
      ensures Moved(balances, r) == CreditManyAtomic(old(balances), cs)
    {
      var staged: Ledger := map[];
      for i := 0 to |cs|
        invariant balances == old(balances)
        invariant FirstOverflow(balances, cs[..i]) == []
        invariant Staged(balances, cs[..i], staged)
      {
        var (to, x) := cs[i];
        assert cs[..i + 1][..i] == cs[..i];
        assert forall a :: SumTo(cs[..i + 1], a) == SumTo(cs[..i], a) + if a == to then x else 0;
        if x != 0 {
          var base := if to in staged then staged[to] else Bal(balances, to);
          if base + x > U128_MAX {
            OverflowPersists(balances, cs, i + 1);
            return Err(DistributionOverflow(to));
          }
          staged := staged[to := base + x];
        }
      }
      assert cs[..|cs|] == cs;
      StagedIsCreditAll(balances, cs, staged);
      balances := balances + staged;
      r := Ok;
    }

    /** As above, with the source drained by the total; a credit back to the
        source starts from its drained balance. */
    method DrainAndCredit(from: Address, cs: Credits) returns (r: Outcome)
      requires Valid()
      modifies this`balances
      ensures Valid()
      ensures Moved(balances, r) == DrainAndCreditAtomic(old(balances), from, cs)
    {
      var fits, total := SumChecked(cs);
      if !fits { return Err(DistributionOverflow(from)); }
      if total == 0 { return Ok; }
      var source := Bal(balances, from);
      if source < total { return Err(InsufficientBalance(from, source, total)); }
      var staged, bad := StageDrained(balances, from, total, cs);
      if bad != [] { return Err(DistributionOverflow(bad[0])); }
      StagedIsCreditAll(Debit(balances, from, total), cs, staged);
      WriteDrained(from, total, staged);
      r := Ok;
    }

    /** The source's own entry is written only when no credit went back to it. */
    method WriteDrained(from: Address, total: nat, staged: Ledger)
      requires total <= Bal(balances, from)
      modifies this`balances
      ensures balances == Debit(old(balances), from, total) + staged
    {
      var left := Bal(balances, from) - total;
      StagedOverDebit(balances, from, total, staged);
      if from !in staged {
        if left == 0 {
          balances := balances - {from};
        } else {
          balances := balances[from := left];
        }
      }
      balances := balances + staged;
    }

    method DebitThenCreditBetween(from: Address, to: Address, x: nat) returns (r: Outcome)
      requires Valid()
      modifies this`balances
      ensures Valid()
      ensures Moved(balances, r) == DebitThenCredit(old(balances), from, to, x)
    {
      r := DebitUncheckedAt(from, x);
      if r.Err? { return; }
      r := CreditUncheckedAt(to, x);
    }

    method CreditEach(cs: Credits) returns (r: Outcome)
      requires Valid()
      modifies this`balances
      ensures Valid()
      ensures Moved(balances, r) == CreditInTurn(old(balances), cs)
    {
      r := Ok;
      for i := 0 to |cs|
        invariant Valid() && r.Ok?
        invariant Moved(balances, r) == CreditInTurn(old(balances), cs[..i])
      {
        assert cs[..i + 1][..i] == cs[..i];
        r := CreditUncheckedAt(cs[i].0, cs[i].1);
        if r.Err? {
          InTurnStops(old(balances), cs, i + 1);
          return;
        }
      }
      assert cs[..|cs|] == cs;
    }

    // ----- Arms -----

    method TransferArm(from: Address, to: Address, x: nat) returns (r: Outcome)
      requires Valid()
      modifies this
      ensures Valid() && Step(Abs(), r) == Apply(old(Abs()), Transfer(from, to, x))
    {
      if from.Reserved? { return Err(ReservedAddressTransferDenied(from)); }
      if to.Reserved? { return Err(ReservedAddressTransferDenied(to)); }
      if x == 0 { return Ok; }
      var source := Bal(balances, from);
      if source < x { return Err(InsufficientBalance(from, source, x)); }
      if from == to { return Ok; }
      var dest := Bal(balances, to);
      if dest + x > U128_MAX { return Err(BalanceOverflow(to)); }
      if source - x == 0 {
        balances := balances - {from};
      } else {
        balances := balances[from := source - x];
      }
      balances := balances[to := dest + x];
      r := Ok;
    }

    method GenesisArm(cs: Credits) returns (r: Outcome)
      requires Valid()
      modifies this
      ensures Valid() && Step(Abs(), r) == Apply(old(Abs()), GenesisAllocation(cs))
    {
      if height != 0 { return Err(GenesisAfterBootstrap(height)); }
      r := CreditMany(cs);
    }

    method MintArm(epoch: nat, authority: nat, validator: nat, treasury: nat) returns (r: Outcome)
      requires Valid()
      modifies this
      ensures Valid() && Step(Abs(), r) == Apply(old(Abs()), MintInflation(epoch, authority, validator, treasury))
    {
      if epoch <= reg.lastMinted { return Err(InflationEpochAlreadyMinted(epoch, reg.lastMinted)); }
      r := CreditMany(MintCredits(authority, validator, treasury));
      if r.Err? { return; }
      reg := reg.(lastMinted := epoch);
    }

    method RewardsArm(epoch: nat, ring: Ring, recipients: Credits) returns (r: Outcome)
      requires Valid()
      modifies this
      ensures Valid() && Step(Abs(), r) == Apply(old(Abs()), DistributeRewards(epoch, ring, recipients))
    {
      if epoch <= LastRewards(reg, ring) {
        return Err(RewardsEpochAlreadyDistributed(ring, epoch, LastRewards(reg, ring)));
      }
      var bad := FindReserved(recipients);
      if bad != [] { return Err(ReservedAddressTransferDenied(bad[0])); }
      r := DrainAndCredit(RewardsPool(ring), recipients);
      if r.Err? { return; }
      reg := WithLastRewards(reg, ring, epoch);
    }

    method DelegateArm(from: Address, id: nat, x: nat) returns (r: Outcome)
      requires Valid()
      modifies this
      ensures Valid() && Step(Abs(), r) == Apply(old(Abs()), Delegate(from, id, x))
    {
      if x == 0 { return Ok; }
      if from.Reserved? { return Err(ReservedAddressTransferDenied(from)); }
      if id !in reg.validators { return Err(SlotNotFound(ValidatorRing, id)); }
      var rec := reg.validators[id];
      if rec.status != Active { return Err(SlotNotActive(ValidatorRing, id, rec.status)); }
      if x > U64_MAX { return Err(DepositedStakeOverflow(id)); }
      var entry := Delegated(reg, id, from) + x;
      if entry > U64_MAX { return Err(DepositedStakeOverflow(id)); }
      r := TransferInternalBetween(from, StakePool(ValidatorRing), x);
      if r.Err? { return; }
      reg := reg.(delegations := reg.delegations[(id, from) := entry]);
    }

    method AdmitArm(ring: Ring, id: nat, stake: nat, mldsa: seq<Byte>, bls: seq<Byte>) returns (r: Outcome)
      requires Valid()
      modifies this`reg
      ensures Valid() && Step(Abs(), r) == Apply(old(Abs()), Admit(ring, id, stake, mldsa, bls))
    {
      if |mldsa| > MAX_MLDSA_PK_BYTES { return Err(FieldTooLong(|mldsa|, MAX_MLDSA_PK_BYTES)); }
      if |bls| > MAX_BLS_PK_BYTES { return Err(FieldTooLong(|bls|, MAX_BLS_PK_BYTES)); }
      if id in SlotsOf(reg, ring) { return Err(SlotAlreadyOccupied(ring, id)); }
      reg := WithSlot(reg, ring, id, SlotRecord(mldsa, bls, stake, 0, 0, Active));
      r := Ok;
    }

    method ExitArm(ring: Ring, id: nat) returns (r: Outcome)
      requires Valid()
      modifies this`reg
      ensures Valid() && Step(Abs(), r) == Apply(old(Abs()), Exit(ring, id))
    {
      var slots := SlotsOf(reg, ring);
      if id !in slots { return Err(SlotNotFound(ring, id)); }
      var rec := slots[id];
      if rec.status != Active { return Err(SlotNotActive(ring, id, rec.status)); }
      rec := rec.(status := Exiting);
      rec := rec.(exitHeight := height);
      reg := WithSlot(reg, ring, id, rec);
      r := Ok;
    }

    method EjectArm(ring: Ring, id: nat) returns (r: Outcome)
      requires Valid()
      modifies this
      ensures Valid() && Step(Abs(), r) == Apply(old(Abs()), Eject(ring, id))
    {
      var slots := SlotsOf(reg, ring);
      if id !in slots { return Err(SlotNotFound(ring, id)); }
      var rec := slots[id];
      var drained := Lesser(rec.deposited, Bal(balances, StakePool(ring)));
      if drained > 0 {
        ShareFits(drained);
        r := DrainAndCredit(StakePool(ring), Waterfall(drained));
        if r.Err? { return; }
      }
      rec := rec.(deposited := 0);
      rec := rec.(status := Ejected);
      reg := WithSlot(reg, ring, id, rec);
      r := Ok;
    }

    method DepositStakeArm(ring: Ring, from: Address, id: nat, x: nat) returns (r: Outcome)
      requires Valid()
      modifies this
      ensures Valid() && Step(Abs(), r) == Apply(old(Abs()), DepositStake(ring, from, id, x))
    {
      if x == 0 { return Ok; }
      if from.Reserved? { return Err(ReservedAddressTransferDenied(from)); }
      var slots := SlotsOf(reg, ring);
      if id !in slots { return Err(SlotNotFound(ring, id)); }
      var rec := slots[id];
      if rec.status != Active { return Err(SlotNotActive(ring, id, rec.status)); }
      if x > U64_MAX { return Err(DepositedStakeOverflow(id)); }
      if rec.deposited + x > U64_MAX { return Err(DepositedStakeOverflow(id)); }
      rec := rec.(deposited := rec.deposited + x);
      r := TransferInternalBetween(from, StakePool(ring), x);
      if r.Err? { return; }
      reg := WithSlot(reg, ring, id, rec);
    }

    method WithdrawStakeArm(ring: Ring, to: Address, id: nat, x: nat) returns (r: Outcome)
      requires Valid()
      modifies this
      ensures Valid() && Step(Abs(), r) == Apply(old(Abs()), WithdrawStake(ring, to, id, x))
    {
      if x == 0 { return Ok; }
      if to.Reserved? { return Err(ReservedAddressTransferDenied(to)); }
      var slots := SlotsOf(reg, ring);
      if id !in slots { return Err(SlotNotFound(ring, id)); }
      var rec := slots[id];
      if rec.status != Exiting { return Err(SlotNotExiting(ring, id, rec.status)); }
      var required := SaturatingAdd64(rec.exitHeight, EXIT_COOLDOWN_BLOCKS);
      if height < required { return Err(ExitCooldownNotElapsed(id, required, height)); }
      if x > rec.deposited { return Err(WithdrawalExceedsDeposit(id, x, rec.deposited)); }
      rec := rec.(deposited := rec.deposited - x);
      r := TransferInternalBetween(StakePool(ring), to, x);
      if r.Err? { return; }
      reg := WithSlot(reg, ring, id, rec);
    }

    method LockArm(user: Address, x: nat, asset: AssetRef) returns (r: Outcome)
      requires Valid()
      modifies this
      ensures Valid() && Step(Abs(), r) == Apply(old(Abs()), L1Lock(user, x, asset))
    {
      if x == 0 { return Ok; }
      var bad := AssetGate(reg, asset);
      if bad != [] { return Err(bad[0]); }
      r := DebitThenCreditBetween(user, ESCROW, x);
    }

    method BurnArm(batch: nat, recipient: Address, x: nat, path: seq<Byte>, asset: AssetRef, chain: nat)
      returns (r: Outcome)
      requires Valid()
      modifies this
      ensures Valid() && Step(Abs(), r) == Apply(old(Abs()), L2BurnProven(batch, recipient, x, path, asset, chain))
    {
      if x == 0 { return Ok; }
      if recipient.Reserved? { return Err(ReservedAddressTransferDenied(recipient)); }
      var bad := AssetGate(reg, asset);
      if bad != [] { return Err(bad[0]); }
      if (chain, batch) !in reg.batches { return Err(L2BatchNotCommitted(chain, batch)); }
      var id := BurnOf(chain, batch, recipient, x, path, asset);
      if id in reg.nullifiers { return Err(L2BurnAlreadyClaimed(id)); }
      reg := reg.(nullifiers := reg.nullifiers + {id});
      r := DebitThenCreditBetween(ESCROW, recipient, x);
    }

    method ForceIncludeArm(tx: seq<Byte>, deadline: nat, submitter: Address, nonce: nat) returns (r: Outcome)
      requires Valid()
      modifies this`reg
      ensures Valid() && Step(Abs(), r) == Apply(old(Abs()), L2ForceInclude(tx, deadline, submitter, nonce))
    {
      var id := ObligationOf(tx, deadline, submitter, nonce);
      if id in reg.obligations { return Err(ForceIncludeAlreadyRegistered(id)); }
      reg := reg.(obligations := reg.obligations[id := Obligation(deadline, submitter, nonce, Pending)]);
      r := Ok;
    }

    method SlashBond(bond: Address, slash: nat) returns (r: Outcome)
      requires Valid() && InsuranceShare(slash) <= slash
      modifies this`balances
      ensures Valid()
      ensures Moved(balances, r) == SlashMoves(old(balances), bond, slash)
    {
      r := DebitUncheckedAt(bond, slash);
      if r.Err? { return; }
      r := CreditEach(Waterfall(slash));
    }

    method SlashMissedArm(id: Digest) returns (r: Outcome)
      requires Valid()
      modifies this
      ensures Valid() && Step(Abs(), r) == Apply(old(Abs()), SlashSequencer(MissedForceInclude, id))
    {
      if id !in reg.obligations { return Err(ForceIncludeNotFound(id)); }
      var ob := reg.obligations[id];
      if ob.status != Pending { return Err(ForceIncludeNotPending(id, ob.status)); }
      reg := reg.(obligations := reg.obligations[id := ob.(status := Slashed)]);
      var slash := LivenessSlash(Bal(balances, BOND));
      ShareFits(slash);
      if slash == 0 {
        NothingToSlash(balances, BOND, ob.submitter);
        return Ok;
      }
      r := SlashBond(BOND, slash);
      if r.Err? { return; }
      if !ob.submitter.Reserved? {
        var bounty := SnitchBounty(slash);
        var treasury := Bal(balances, TREASURY);
        r := DebitThenCreditBetween(TREASURY, ob.submitter, Lesser(bounty, treasury));
      }
    }

    method SlashSafetyArm(reason: SlashReason, offense: Digest) returns (r: Outcome)
      requires Valid() && (reason == Equivocation || reason == InvalidBatch)
      modifies this
      ensures Valid() && Step(Abs(), r) == Apply(old(Abs()), SlashSequencer(reason, offense))
    {
      if offense in reg.offenses { return Err(EquivocationAlreadyRecorded(offense)); }
      var kind := if reason == Equivocation then EquivocationOffense else InvalidBatchOffense;
      reg := reg.(offenses := reg.offenses[offense := kind]);
      r := ForfeitSafety();
    }

    /** The whole safety bond goes through the waterfall. */
    method ForfeitSafety() returns (r: Outcome)
      requires Valid()
      modifies this`balances
      ensures Valid() && Moved(balances, r) == ForfeitMove(old(balances))
    {
      var bond := Bal(balances, SAFETY);
      ShareFits(bond);
      if bond == 0 {
        NothingToSlash(balances, SAFETY, TREASURY);
        r := Ok;
      } else {
        r := SlashBond(SAFETY, bond);
      }
    }

    method HonoredArm(id: Digest) returns (r: Outcome)
      requires Valid()
      modifies this`reg
      ensures Valid() && Step(Abs(), r) == Apply(old(Abs()), MarkForceIncludeHonored(id))
    {
      if id !in reg.obligations { return Err(ForceIncludeNotFound(id)); }
      var ob := reg.obligations[id];
      if ob.status != Pending { return Err(ForceIncludeNotPending(id, ob.status)); }
      reg := reg.(obligations := reg.obligations[id := ob.(status := Honored)]);
      r := Ok;
    }

    method EjectSequencerArm(id: Digest, ejector: Address) returns (r: Outcome)
      requires Valid()
      modifies this
      ensures Valid() && Step(Abs(), r) == Apply(old(Abs()), EjectSequencer(id, ejector))
    {
      if ejector.Reserved? { return Err(ReservedAddressTransferDenied(ejector)); }
      if id !in reg.obligations { return Err(ForceIncludeNotFound(id)); }
      var ob := reg.obligations[id];
      if ob.status != Slashed { return Err(ForceIncludeNotSlashed(id, ob.status)); }
      if id in reg.ejections { return Err(SequencerEjectionAlreadyRecorded(id)); }
      reg := reg.(ejections := reg.ejections[id := ejector]);
      var bounty := SnitchBounty(LivenessSlash(Bal(balances, BOND)));
      r := DebitThenCreditBetween(TREASURY, ejector, Lesser(bounty, Bal(balances, TREASURY)));
    }

    method DistributeArm(counterparties: Credits, insurance: nat, treasury: nat) returns (r: Outcome)
      requires Valid()
      modifies this
      ensures Valid()
      ensures Step(Abs(), r) == Apply(old(Abs()), DistributeSlashedFunds(counterparties, insurance, treasury))
    {
      var bad := FindReserved(counterparties);
      if bad != [] { return Err(ReservedAddressInCounterparties(bad[0])); }
      r := CreditEach(SlashedCredits(counterparties, insurance, treasury));
    }

    /** The whole dispatch: the state afterwards and the outcome are those of
        `Apply`. */
    method ApplyIntent(i: Intent) returns (r: Outcome)
      requires Valid()
      modifies this
      ensures Valid() && Step(Abs(), r) == Apply(old(Abs()), i)
    {
      match i {
        case Transfer(from, to, x) => r := TransferArm(from, to, x);
        case GenesisAllocation(cs) => r := GenesisArm(cs);
        case MintInflation(epoch, a, v, t) => r := MintArm(epoch, a, v, t);
        case DistributeRewards(epoch, ring, cs) => r := RewardsArm(epoch, ring, cs);
        case Delegate(from, id, x) => r := DelegateArm(from, id, x);
        case Admit(ring, id, stake, mldsa, bls) => r := AdmitArm(ring, id, stake, mldsa, bls);
        case Exit(ring, id) => r := ExitArm(ring, id);
        case Eject(ring, id) => r := EjectArm(ring, id);
        case DepositStake(ring, from, id, x) => r := DepositStakeArm(ring, from, id, x);
        case WithdrawStake(ring, to, id, x) => r := WithdrawStakeArm(ring, to, id, x);
        case L1Lock(user, x, asset) => r := LockArm(user, x, asset);
        case L2BurnProven(batch, recipient, x, path, asset, chain) =>
          r := BurnArm(batch, recipient, x, path, asset, chain);
        case L2ForceInclude(tx, deadline, submitter, nonce) => r := ForceIncludeArm(tx, deadline, submitter, nonce);
        case SlashSequencer(reason, offense) =>
          match reason {
            case MissedForceInclude => r := SlashMissedArm(offense);
            case Equivocation => r := SlashSafetyArm(reason, offense);
            case InvalidBatch => r := SlashSafetyArm(reason, offense);
            case Downtime => r := Ok;
          }
        case MarkForceIncludeHonored(id) => r := HonoredArm(id);
        case EjectSequencer(id, ejector) => r := EjectSequencerArm(id, ejector);
        case DepositSequencerBond(from, x) => r := PayInArm(i, from, BOND, x);
        case DepositSafetyBond(from, x) => r := PayInArm(i, from, SAFETY, x);
        case DisburseTreasury(to, x) => r := PayOutArm(i, TREASURY, to, x);
        case ClaimInsurance(to, x) => r := PayOutArm(i, INSURANCE, to, x);
        case DistributeSlashedFunds(cs, insurance, treasury) => r := DistributeArm(cs, insurance, treasury);
        case CommitL2StateRoot(chain, batch, vk, verified) => r := CommitArm(chain, batch, vk, verified);
        case SetL2VerifyingKey(chain, aggregation, range) => r := SetVkArm(chain, aggregation, range);
        case AddBridgeAsset(id, c, n, y) => r := AddAssetArm(id, c, n, y);
        case PauseBridgeAsset(id) => r := MarkAssetArm(id, AssetPaused);
        case RemoveBridgeAsset(id) => r := MarkAssetArm(id, AssetRemoved);
        case PostL2DA => r := Ok;
      }
    }

    /** The two bond deposits. */
    method PayInArm(i: Intent, from: Address, to: Address, x: nat) returns (r: Outcome)
      requires Valid()
      requires (i == DepositSequencerBond(from, x) && to == BOND) || (i == DepositSafetyBond(from, x) && to == SAFETY)
      modifies this
      ensures Valid() && Step(Abs(), r) == Apply(old(Abs()), i)
    {
      if x == 0 { return Ok; }
      if from.Reserved? { return Err(ReservedAddressTransferDenied(from)); }
      r := DebitThenCreditBetween(from, to, x);
    }

    /** The two governance payouts. */
    method PayOutArm(i: Intent, from: Address, to: Address, x: nat) returns (r: Outcome)
      requires Valid()
      requires (i == DisburseTreasury(to, x) && from == TREASURY) || (i == ClaimInsurance(to, x) && from == INSURANCE)
      modifies this
      ensures Valid() && Step(Abs(), r) == Apply(old(Abs()), i)
    {
      if x == 0 { return Ok; }
      if to.Reserved? { return Err(ReservedAddressTransferDenied(to)); }
      r := DebitThenCreditBetween(from, to, x);
    }

    method CommitArm(chain: nat, batch: nat, vk: nat, verified: bool) returns (r: Outcome)
      requires Valid()
      modifies this`reg
      ensures Valid() && Step(Abs(), r) == Apply(old(Abs()), CommitL2StateRoot(chain, batch, vk, verified))
    {
      if !verified || vk == 0 { return Err(L2VerifierRejected); }
      var expected := PinnedVk(reg, chain);
      if expected != vk { return Err(L2VkPinMismatch(expected, vk)); }
      reg := reg.(batches := reg.batches + {(chain, batch)});
      r := Ok;
    }

    method SetVkArm(chain: nat, aggregation: nat, range: nat) returns (r: Outcome)
      requires Valid()
      modifies this`reg
      ensures Valid() && Step(Abs(), r) == Apply(old(Abs()), SetL2VerifyingKey(chain, aggregation, range))
    {
      if aggregation == 0 && range == 0 { return Err(SetL2VkAllZeros); }
      reg := reg.(vks := reg.vks[chain := aggregation]);
      r := Ok;
    }

    method AddAssetArm(id: nat, c: nat, n: nat, y: nat) returns (r: Outcome)
      requires Valid()
      modifies this`reg
      ensures Valid() && Step(Abs(), r) == Apply(old(Abs()), AddBridgeAsset(id, c, n, y))
    {
      if c > MAX_SOURCE_CONTRACT_BYTES { return Err(FieldTooLong(c, MAX_SOURCE_CONTRACT_BYTES)); }
      if n > MAX_ASSET_NAME_BYTES { return Err(FieldTooLong(n, MAX_ASSET_NAME_BYTES)); }
      if y > MAX_ASSET_SYMBOL_BYTES { return Err(FieldTooLong(y, MAX_ASSET_SYMBOL_BYTES)); }
      if id in reg.assets { return Err(BridgeAssetAlreadyRegistered(id)); }
      reg := reg.(assets := reg.assets[id := AssetActive]);
      r := Ok;
    }

    method MarkAssetArm(id: nat, status: AssetStatus) returns (r: Outcome)
      requires Valid() && status != AssetActive
      modifies this`reg
      ensures Valid()
      ensures Step(Abs(), r)
           == Apply(old(Abs()), if status == AssetPaused then PauseBridgeAsset(id) else RemoveBridgeAsset(id))
    {
      if id !in reg.assets { return Err(BridgeAssetNotFound(id)); }
      reg := reg.(assets := reg.assets[id := status]);
      r := Ok;
    }
  }

  method SumChecked(cs: Credits) returns (fits: bool, total: nat)
    ensures fits <==> Total(cs) <= U128_MAX
    ensures fits ==> total == Total(cs)
  {
    total := 0;
    for i := 0 to |cs|
      invariant total == Total(cs[..i]) <= U128_MAX
    {
      assert cs[..i + 1][..i] == cs[..i];
      if total + cs[i].1 > U128_MAX {
        TotalGrows(cs, i + 1);
        return false, total;
      }
      total := total + cs[i].1;
    }
    assert cs[..|cs|] == cs;
    fits := true;
  }

  /** Stage the credits over the balances with `from` already drained. */
  method StageDrained(b: Ledger, from: Address, total: nat, cs: Credits)
    returns (staged: Ledger, bad: seq<Address>)
    requires total <= Bal(b, from)
    ensures bad == FirstOverflow(Debit(b, from, total), cs)
    ensures bad == [] ==> Staged(Debit(b, from, total), cs, staged)
  {
    ghost var drained := Debit(b, from, total);
    staged := map[];
    for i := 0 to |cs|
      invariant FirstOverflow(drained, cs[..i]) == []
      invariant Staged(drained, cs[..i], staged)
    {
      var (to, x) := cs[i];
      assert cs[..i + 1][..i] == cs[..i];
      assert forall a :: SumTo(cs[..i + 1], a) == SumTo(cs[..i], a) + if a == to then x else 0;
      if x != 0 {
        var base := if to in staged then staged[to] else if to == from then Bal(b, from) - total else Bal(b, to);
        if base + x > U128_MAX {
          OverflowPersists(drained, cs, i + 1);
          return staged, [to];
        }
        staged := staged[to := base + x];
      }
    }
    assert cs[..|cs|] == cs;
    bad := [];
  }

  /** Writing the drained source only when it is not staged loses nothing. */
  lemma StagedOverDebit(b: Ledger, from: Address, total: nat, staged: Ledger)
    requires total <= Bal(b, from)
    ensures from in staged ==> b + staged == Debit(b, from, total) + staged
  {
  }

  method FindReserved(cs: Credits) returns (bad: seq<Address>)
    ensures bad == FirstReserved(cs)
  {
    for i := 0 to |cs|
      invariant FirstReserved(cs[..i]) == []
    {
      assert cs[..i + 1][..i] == cs[..i];
      if cs[i].0.Reserved? {
        ReservedPersists(cs, i + 1);
        return [cs[i].0];
      }
    }
    assert cs[..|cs|] == cs;
    bad := [];
  }

  // ----- Staging -----

  /** The staging map holds the new balance of exactly the credited addresses. */
  ghost predicate Staged(b: Ledger, cs: Credits, staged: Ledger)
  {
    && (forall a | a in staged :: SumTo(cs, a) > 0 && staged[a] == Bal(b, a) + SumTo(cs, a) <= U128_MAX)
    && (forall a | a !in staged :: SumTo(cs, a) == 0)
  }

  lemma StagedIsCreditAll(b: Ledger, cs: Credits, staged: Ledger)
    requires Sound(b) && Staged(b, cs, staged) && FirstOverflow(b, cs) == []
    ensures b + staged == CreditAll(b, cs) && Sound(b + staged)
  {
    FirstOverflowIff(b, cs);
    CreditAllPointwise(b, cs);
    CreditAllSound(b, cs);
    SameBalancesSameLedger(b + staged, CreditAll(b, cs));
  }

  lemma {:induction false} OverflowPersists(b: Ledger, cs: Credits, k: nat)
    requires k <= |cs| && FirstOverflow(b, cs[..k]) != []
    ensures FirstOverflow(b, cs) == FirstOverflow(b, cs[..k])
    decreases |cs|
  {
    if k == |cs| {
      assert cs[..k] == cs;
    } else {
      assert cs[..|cs| - 1][..k] == cs[..k];
      OverflowPersists(b, cs[..|cs| - 1], k);
    }
  }

  lemma {:induction false} TotalGrows(cs: Credits, k: nat)
    requires k <= |cs|
    ensures Total(cs[..k]) <= Total(cs)
    decreases |cs|
  {
    if k == |cs| {
      assert cs[..k] == cs;
    } else {
      assert cs[..|cs| - 1][..k] == cs[..k];
      TotalGrows(cs[..|cs| - 1], k);
    }
  }

  lemma {:induction false} ReservedPersists(cs: Credits, k: nat)
    requires k <= |cs| && FirstReserved(cs[..k]) != []
    ensures FirstReserved(cs) == FirstReserved(cs[..k])
    decreases |cs|
  {
    if k == |cs| {
      assert cs[..k] == cs;
    } else {
      assert cs[..|cs| - 1][..k] == cs[..k];
      ReservedPersists(cs[..|cs| - 1], k);
    }
  }

  lemma NothingToSlash(b: Ledger, bond: Address, to: Address)
    requires InsuranceShare(0) <= 0
    ensures SlashMoves(b, bond, 0) == Moved(b, Ok)
    ensures PayBounty(b, to, SnitchBounty(0)) == Moved(b, Ok)
  {
    var w := Waterfall(0);
    assert w[..1][..0] == w[..0];
    assert CreditInTurn(b, w[..1][..0]) == Moved(b, Ok);
    assert CreditInTurn(b, w[..1]) == Moved(b, Ok);
  }
}
