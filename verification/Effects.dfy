/** What each intent does to the ledger, said without its gates, moves and registry
    writes: how it answers, who pays whom, and which entry changes.  Every clause
    speaks of balances and registry entries only. */
module Effects {
  import opened Balances
  import opened Registries
  import opened Intents
  import opened Moves
  import opened RegistryFrame
  import opened SupplyLedger
  import opened SupplyAccount

  // ----- Amounts -----

  /** A twentieth of the bond, as long as the product fits u128. */
  lemma LivenessSlashMeans(bond: nat)
    requires bond * 500 <= U128_MAX
    ensures LivenessSlash(bond) == bond / 20
  {
    assert bond * 500 / 10_000 == bond / 20;
  }

  /** Seven tenths of the slash, as long as the product fits u128. */
  lemma InsuranceShareMeans(slash: nat)
    requires slash * 70 <= U128_MAX
    ensures InsuranceShare(slash) == slash * 7 / 10
  {
    assert slash * 70 / 100 == slash * 7 / 10;
  }

  /** A tenth of the slash, and a million at most; the saturation never shows. */
  lemma SnitchBountyMeans(slash: nat)
    ensures SnitchBounty(slash) == Lesser(slash / 10, 1_000_000)
  {
    assert slash * 1_000 / 10_000 == slash / 10;
    if slash * SNITCH_BOUNTY_BPS > U128_MAX {
      assert slash / 10 >= 1_000_000;
    }
  }

  /** The first height at which a slot that exited at `stamp` may withdraw. */
  function CooldownEnd(stamp: nat): nat
  {
    Lesser(stamp + 2_419_200, 0xFFFF_FFFF_FFFF_FFFF)
  }

  // ----- Transfers -----

  /** A transfer takes from the sender and pays the recipient, or changes nothing. */
  lemma TransferEffect(s: State, from: Address, to: Address, x: nat)
    ensures var t, b := Apply(s, Transfer(from, to, x)), s.balances;
            && t.outcome == (if from.Reserved? then Err(ReservedAddressTransferDenied(from))
                             else if to.Reserved? then Err(ReservedAddressTransferDenied(to))
                             else if x > Bal(b, from) then Err(InsufficientBalance(from, Bal(b, from), x))
                             else if x > 0 && from != to && Bal(b, to) + x > U128_MAX then Err(BalanceOverflow(to))
                             else Ok)
            && (if t.outcome.Ok? then Pays(b, t.state.balances, from, to, x) else t.state.balances == b)
            && t.state.reg == s.reg
  {
    TransferInternalPays(s.balances, from, to, x);
  }

  // ----- Stake -----

  lemma DelegateEffect(s: State, from: Address, id: nat, x: nat)
    ensures var t, b, pool := Apply(s, Delegate(from, id, x)), s.balances, Reserved(ValidatorStakePool);
            var held := if (id, from) in s.reg.delegations then s.reg.delegations[(id, from)] else 0;
            && t.outcome == (if x == 0 then Ok
                             else if from.Reserved? then Err(ReservedAddressTransferDenied(from))
                             else if id !in s.reg.validators then Err(SlotNotFound(ValidatorRing, id))
                             else if s.reg.validators[id].status != Active
                               then Err(SlotNotActive(ValidatorRing, id, s.reg.validators[id].status))
                             else if held + x > U64_MAX then Err(DepositedStakeOverflow(id))
                             else if x > Bal(b, from) then Err(InsufficientBalance(from, Bal(b, from), x))
                             else if Bal(b, pool) + x > U128_MAX then Err(DistributionOverflow(pool))
                             else Ok)
            && (x == 0 || t.outcome.Err? ==> t.state == s)
            && (x > 0 && t.outcome.Ok? ==>
                  && Pays(b, t.state.balances, from, pool, x)
                  && t.state.reg == s.reg.(delegations := s.reg.delegations[(id, from) := held + x]))
  {
    TransferInternalPays(s.balances, from, StakePool(ValidatorRing), x);
  }

  lemma DepositEffect(s: State, ring: Ring, from: Address, id: nat, x: nat)
    ensures var t, b, pool := Apply(s, DepositStake(ring, from, id, x)), s.balances, StakePool(ring);
            var slots := SlotsOf(s.reg, ring);
            && t.outcome == (if x == 0 then Ok
                             else if from.Reserved? then Err(ReservedAddressTransferDenied(from))
                             else if id !in slots then Err(SlotNotFound(ring, id))
                             else if slots[id].status != Active then Err(SlotNotActive(ring, id, slots[id].status))
                             else if slots[id].deposited + x > U64_MAX then Err(DepositedStakeOverflow(id))
                             else if x > Bal(b, from) then Err(InsufficientBalance(from, Bal(b, from), x))
                             else if Bal(b, pool) + x > U128_MAX then Err(DistributionOverflow(pool))
                             else Ok)
            && (x == 0 || t.outcome.Err? ==> t.state == s)
            && (x > 0 && t.outcome.Ok? ==>
                  && Pays(b, t.state.balances, from, pool, x)
                  && t.state.reg == WithSlot(s.reg, ring, id, slots[id].(deposited := slots[id].deposited + x)))
  {
    TransferInternalPays(s.balances, from, StakePool(ring), x);
  }

  lemma WithdrawEffect(s: State, ring: Ring, to: Address, id: nat, x: nat)
    ensures var t, b, pool := Apply(s, WithdrawStake(ring, to, id, x)), s.balances, StakePool(ring);
            var slots := SlotsOf(s.reg, ring);
            && t.outcome == (if x == 0 then Ok
                             else if to.Reserved? then Err(ReservedAddressTransferDenied(to))
                             else if id !in slots then Err(SlotNotFound(ring, id))
                             else if slots[id].status != Exiting then Err(SlotNotExiting(ring, id, slots[id].status))
                             else if s.height < CooldownEnd(slots[id].exitHeight)
                               then Err(ExitCooldownNotElapsed(id, CooldownEnd(slots[id].exitHeight), s.height))
                             else if x > slots[id].deposited
                               then Err(WithdrawalExceedsDeposit(id, x, slots[id].deposited))
                             else if x > Bal(b, pool) then Err(InsufficientBalance(pool, Bal(b, pool), x))
                             else if Bal(b, to) + x > U128_MAX then Err(DistributionOverflow(to))
                             else Ok)
            && (x == 0 || t.outcome.Err? ==> t.state == s)
            && (x > 0 && t.outcome.Ok? ==>
                  && Pays(b, t.state.balances, pool, to, x)
                  && t.state.reg == WithSlot(s.reg, ring, id, slots[id].(deposited := slots[id].deposited - x)))
  {
    TransferInternalPays(s.balances, StakePool(ring), to, x);
  }

  lemma AdmitEffect(s: State, ring: Ring, id: nat, stake: nat, mldsa: seq<Byte>, bls: seq<Byte>)
    ensures var t := Apply(s, Admit(ring, id, stake, mldsa, bls));
            && t.outcome == (if |mldsa| > 2048 then Err(FieldTooLong(|mldsa|, 2048))
                             else if |bls| > 128 then Err(FieldTooLong(|bls|, 128))
                             else if id in SlotsOf(s.reg, ring) then Err(SlotAlreadyOccupied(ring, id))
                             else Ok)
            && t.state == (if t.outcome.Ok?
                           then s.(reg := WithSlot(s.reg, ring, id, SlotRecord(mldsa, bls, stake, 0, 0, Active)))
                           else s)
  {
  }

  /** An exit stamps the height at which it happens. */
  lemma ExitEffect(s: State, ring: Ring, id: nat)
    ensures var t, slots := Apply(s, Exit(ring, id)), SlotsOf(s.reg, ring);
            && t.outcome == (if id !in slots then Err(SlotNotFound(ring, id))
                             else if slots[id].status != Active then Err(SlotNotActive(ring, id, slots[id].status))
                             else Ok)
            && t.state == (if t.outcome.Ok?
                           then s.(reg := WithSlot(s.reg, ring, id,
                                                   slots[id].(status := Exiting, exitHeight := s.height)))
                           else s)
  {
  }

  // ----- Slashed money -----

  /** `from` loses `x`; insurance and the treasury split it; no one else notices. */
  ghost predicate Splits(b: Ledger, c: Ledger, from: Address, x: nat)
  {
    && InsuranceShare(x) <= x <= Bal(b, from)
    && forall a :: Bal(c, a) == (if a == from then Bal(b, a) - x
                                 else if a == INSURANCE then Bal(b, a) + InsuranceShare(x)
                                 else if a == TREASURY then Bal(b, a) + (x - InsuranceShare(x))
                                 else Bal(b, a))
  }

  /** An ejection empties the slot, whatever its status, and splits its deposit as
      far as the pool reaches. */
  lemma EjectEffect(s: State, ring: Ring, id: nat)
    ensures var t, b, pool := Apply(s, Eject(ring, id)), s.balances, StakePool(ring);
            var slots := SlotsOf(s.reg, ring);
            && (id !in slots ==> t == Step(s, Err(SlotNotFound(ring, id))))
            && (id in slots ==>
                  var x := Lesser(slots[id].deposited, Bal(b, pool));
                  && (t.outcome.Ok? <==> x <= U128_MAX && SlashLoss(b, x) == 0)
                  && (t.outcome.Err? ==> t.state == s && t.outcome.error.DistributionOverflow?)
                  && (t.outcome.Ok? ==>
                        && Splits(b, t.state.balances, pool, x)
                        && t.state.reg
                        == WithSlot(s.reg, ring, id, slots[id].(deposited := 0, status := Ejected))))
  {
    ApplyParts(s, Eject(ring, id));
    if id in SlotsOf(s.reg, ring) {
      EjectMoveEffect(s.balances, StakePool(ring), SlotsOf(s.reg, ring)[id].deposited);
    }
  }

  lemma EjectMoveEffect(b: Ledger, pool: Address, deposited: nat)
    requires pool != INSURANCE && pool != TREASURY
    ensures var m, x := EjectMove(b, pool, deposited), Lesser(deposited, Bal(b, pool));
            && (m.outcome.Ok? <==> x <= U128_MAX && SlashLoss(b, x) == 0)
            && (m.outcome.Err? ==> m.balances == b && m.outcome.error.DistributionOverflow?)
            && (m.outcome.Ok? ==> Splits(b, m.balances, pool, x))
  {
    var x := Lesser(deposited, Bal(b, pool));
    ShareFits(x);
    WaterfallTotals(x);
    DrainPays(b, pool, Waterfall(x));
    WaterfallRoom(b, pool, x);
  }

  /** The waterfall fits exactly when it loses nothing. */
  lemma WaterfallRoom(b: Ledger, from: Address, x: nat)
    requires InsuranceShare(x) <= x <= Bal(b, from) && from != INSURANCE && from != TREASURY
    ensures CreditsFit(Debit(b, from, x), Waterfall(x)) <==> SlashLoss(b, x) == 0
  {
    var d := Debit(b, from, x);
    WaterfallTotals(x);
    assert SumTo(Waterfall(x), INSURANCE) == InsuranceShare(x);
    assert SumTo(Waterfall(x), TREASURY) == x - InsuranceShare(x);
    assert Bal(d, INSURANCE) == Bal(b, INSURANCE) && Bal(d, TREASURY) == Bal(b, TREASURY);
  }

  lemma SlashEffect(b: Ledger, bond: Address, x: nat)
    requires InsuranceShare(x) <= x <= Bal(b, bond) && bond != INSURANCE && bond != TREASURY
    ensures var m := SlashMoves(b, bond, x);
            && (m.outcome.Ok? <==> SlashLoss(b, x) == 0)
            && (m.outcome.Ok? ==> Splits(b, m.balances, bond, x))
  {
    SlashPays(b, bond, x);
    SlashAccount(b, bond, x);
  }

  lemma OffenseMarksOnly(s: State, reason: SlashReason, offense: Digest)
    requires reason == Equivocation || reason == InvalidBatch
    ensures var t := Apply(s, SlashSequencer(reason, offense));
            var kind := if reason == Equivocation then EquivocationOffense else InvalidBatchOffense;
            && (offense in s.reg.offenses ==> t == Step(s, Err(EquivocationAlreadyRecorded(offense))))
            && (offense !in s.reg.offenses ==>
                  && t.state.reg == s.reg.(offenses := s.reg.offenses[offense := kind])
                  && Moved(t.state.balances, t.outcome) == ForfeitMove(s.balances))
  {
  }

  /** An equivocation or an invalid batch is recorded once, under its kind, and
      forfeits the whole safety bond. */
  lemma ForfeitEffect(s: State, reason: SlashReason, offense: Digest)
    requires reason == Equivocation || reason == InvalidBatch
    ensures var t, b := Apply(s, SlashSequencer(reason, offense)), s.balances;
            var kind := if reason == Equivocation then EquivocationOffense else InvalidBatchOffense;
            && (offense in s.reg.offenses ==> t == Step(s, Err(EquivocationAlreadyRecorded(offense))))
            && (offense !in s.reg.offenses ==>
                  && t.state.reg == s.reg.(offenses := s.reg.offenses[offense := kind])
                  && (t.outcome.Ok? <==> SlashLoss(b, Bal(b, SAFETY)) == 0)
                  && (t.outcome.Ok? ==> Splits(b, t.state.balances, SAFETY, Bal(b, SAFETY))))
  {
    OffenseMarksOnly(s, reason, offense);
    ShareFits(Bal(s.balances, SAFETY));
    SlashEffect(s.balances, SAFETY, Bal(s.balances, SAFETY));
  }

  lemma DowntimeEffect(s: State, offense: Digest)
    ensures Apply(s, SlashSequencer(Downtime, offense)) == Step(s, Ok)
  {
  }

  /** What a strike moves: the split of the slash, less the submitter's bounty. */
  ghost predicate StrikeMoves(b: Ledger, c: Ledger, who: Address)
  {
    var slash := LivenessSlash(Bal(b, BOND));
    var bounty := if who.User? then Lesser(slash / 10, 1_000_000) else 0;
    && InsuranceShare(slash) + bounty <= slash
    && forall a :: Bal(c, a) == (if a == BOND then Bal(b, a) - slash
                                 else if a == INSURANCE then Bal(b, a) + InsuranceShare(slash)
                                 else if a == TREASURY then Bal(b, a) + (slash - InsuranceShare(slash) - bounty)
                                 else if a == who then Bal(b, a) + bounty
                                 else Bal(b, a))
  }

  lemma BountyAfterSplit(b: Ledger, c: Ledger, who: Address)
    requires who.User? && Splits(b, c, BOND, LivenessSlash(Bal(b, BOND)))
    ensures var bounty := SnitchBounty(LivenessSlash(Bal(b, BOND)));
            var m := PayBounty(c, who, bounty);
            && (m.outcome.Ok? <==> !CreditFails(b, who, bounty))
            && (m.outcome.Ok? ==> StrikeMoves(b, m.balances, who))
  {
    var slash := LivenessSlash(Bal(b, BOND));
    SnitchBountyMeans(slash);
    TreasuryShareCoversBounty(slash);
    BountyPays(c, who, SnitchBounty(slash));
  }

  lemma StrikeMoveEffect(b: Ledger, who: Address)
    ensures StrikeMove(b, who).outcome.Ok? <==> StrikeLoss(b, who) == 0
    ensures StrikeMove(b, who).outcome.Ok? ==> StrikeMoves(b, StrikeMove(b, who).balances, who)
  {
    var slash := LivenessSlash(Bal(b, BOND));
    LivenessSlashIsSmall(Bal(b, BOND));
    ShareFits(slash);
    SlashEffect(b, BOND, slash);
    if who.User? && SlashMoves(b, BOND, slash).outcome.Ok? {
      BountyAfterSplit(b, SlashMoves(b, BOND, slash).balances, who);
    }
  }

  ghost predicate PendingIn(s: State, id: Digest)
  {
    id in s.reg.obligations && s.reg.obligations[id].status == Pending
  }

  lemma StrikeMarksOnly(s: State, id: Digest)
    ensures var t, obs := Apply(s, SlashSequencer(MissedForceInclude, id)), s.reg.obligations;
            && (id !in obs ==> t == Step(s, Err(ForceIncludeNotFound(id))))
            && (id in obs && obs[id].status != Pending ==>
                  t == Step(s, Err(ForceIncludeNotPending(id, obs[id].status))))
            && (PendingIn(s, id) ==>
                  && t.state.reg == s.reg.(obligations := obs[id := obs[id].(status := Slashed)])
                  && Moved(t.state.balances, t.outcome) == StrikeMove(s.balances, obs[id].submitter))
  {
  }

  /** A strike marks the pending obligation, even if the money then fails. */
  lemma StrikeEffect(s: State, id: Digest)
    ensures var t, obs := Apply(s, SlashSequencer(MissedForceInclude, id)), s.reg.obligations;
            && (id !in obs ==> t == Step(s, Err(ForceIncludeNotFound(id))))
            && (id in obs && obs[id].status != Pending ==>
                  t == Step(s, Err(ForceIncludeNotPending(id, obs[id].status))))
            && (PendingIn(s, id) ==>
                  && t.state.reg == s.reg.(obligations := obs[id := obs[id].(status := Slashed)])
                  && (t.outcome.Ok? <==> StrikeLoss(s.balances, obs[id].submitter) == 0)
                  && (t.outcome.Ok? ==> StrikeMoves(s.balances, t.state.balances, obs[id].submitter)))
  {
    StrikeMarksOnly(s, id);
    if PendingIn(s, id) { StrikeMoveEffect(s.balances, s.reg.obligations[id].submitter); }
  }

  /** An ejection of the sequencer is recorded once per slashed obligation, and pays
      its ejector out of the treasury as far as that reaches. */
  lemma EjectSequencerEffect(s: State, id: Digest, ejector: Address)
    ensures var t, b, obs := Apply(s, EjectSequencer(id, ejector)), s.balances, s.reg.obligations;
            var bounty := Lesser(Lesser(LivenessSlash(Bal(b, BOND)) / 10, 1_000_000), Bal(b, TREASURY));
            && (ejector.Reserved? ==> t == Step(s, Err(ReservedAddressTransferDenied(ejector))))
            && (ejector.User? && id !in obs ==> t == Step(s, Err(ForceIncludeNotFound(id))))
            && (ejector.User? && id in obs && obs[id].status != Slashed ==>
                  t == Step(s, Err(ForceIncludeNotSlashed(id, obs[id].status))))
            && (ejector.User? && id in obs && obs[id].status == Slashed && id in s.reg.ejections ==>
                  t == Step(s, Err(SequencerEjectionAlreadyRecorded(id))))
            && (ejector.User? && id in obs && obs[id].status == Slashed && id !in s.reg.ejections ==>
                  && t.state.reg == s.reg.(ejections := s.reg.ejections[id := ejector])
                  && t.outcome == (if CreditFails(b, ejector, bounty) then Err(DistributionOverflow(ejector)) else Ok)
                  && (if t.outcome.Ok? then Pays(b, t.state.balances, TREASURY, ejector, bounty)
                      else t.state.balances == Debit(b, TREASURY, bounty)))
  {
    var b := s.balances;
    SnitchBountyMeans(LivenessSlash(Bal(b, BOND)));
    ApplyParts(s, EjectSequencer(id, ejector));
    if ejector.User? { BountyPays(b, ejector, EjectorBounty(b)); }
  }

  // ----- Payments that debit first -----

  /** A debit followed by a credit: the answer, the payment, and what a failing
      credit leaves behind. */
  ghost predicate PaidInTurn(b: Ledger, c: Ledger, r: Outcome, from: Address, to: Address, x: nat)
  {
    && r == (if x > Bal(b, from) then Err(InsufficientBalance(from, Bal(b, from), x))
             else if PaymentFails(b, from, to, x) then Err(DistributionOverflow(to))
             else Ok)
    && (r.Ok? ==> Pays(b, c, from, to, x))
    && (r.Err? ==> c == if x > Bal(b, from) then b else Debit(b, from, x))
  }

  lemma PaymentEffect(b: Ledger, from: Address, to: Address, x: nat)
    ensures var m := DebitThenCredit(b, from, to, x); PaidInTurn(b, m.balances, m.outcome, from, to, x)
  {
    DebitThenCreditPays(b, from, to, x);
  }

  /** A lock pays from the user's account into the escrow. */
  lemma LockEffect(s: State, user: Address, x: nat, asset: AssetRef)
    ensures var t, assets := Apply(s, L1Lock(user, x, asset)), s.reg.assets;
            if x == 0 then t == Step(s, Ok)
            else if asset.Asset? && asset.id !in assets then t == Step(s, Err(BridgeAssetNotFound(asset.id)))
            else if asset.Asset? && assets[asset.id] != AssetActive
              then t == Step(s, Err(BridgeAssetNotActive(asset.id, assets[asset.id])))
            else t.state.reg == s.reg && PaidInTurn(s.balances, t.state.balances, t.outcome, user, ESCROW, x)
  {
    PaymentEffect(s.balances, user, ESCROW, x);
  }

  /** A claimed burn is recorded first and then paid out of the escrow. */
  lemma BurnEffect(s: State, batch: nat, to: Address, x: nat, path: seq<Byte>, asset: AssetRef, chain: nat)
    ensures var t, assets := Apply(s, L2BurnProven(batch, to, x, path, asset, chain)), s.reg.assets;
            var id := BurnOf(chain, batch, to, x, path, asset);
            if x == 0 then t == Step(s, Ok)
            else if to.Reserved? then t == Step(s, Err(ReservedAddressTransferDenied(to)))
            else if asset.Asset? && asset.id !in assets then t == Step(s, Err(BridgeAssetNotFound(asset.id)))
            else if asset.Asset? && assets[asset.id] != AssetActive
              then t == Step(s, Err(BridgeAssetNotActive(asset.id, assets[asset.id])))
            else if (chain, batch) !in s.reg.batches then t == Step(s, Err(L2BatchNotCommitted(chain, batch)))
            else if id in s.reg.nullifiers then t == Step(s, Err(L2BurnAlreadyClaimed(id)))
            else && t.state.reg == s.reg.(nullifiers := s.reg.nullifiers + {id})
                 && PaidInTurn(s.balances, t.state.balances, t.outcome, ESCROW, to, x)
  {
    PaymentEffect(s.balances, ESCROW, to, x);
  }

  /** Users pay into the two bonds; the treasury and the insurance pool pay users. */
  lemma SequencerBondEffect(s: State, from: Address, x: nat)
    ensures var t := Apply(s, DepositSequencerBond(from, x));
            if x == 0 then t == Step(s, Ok)
            else if from.Reserved? then t == Step(s, Err(ReservedAddressTransferDenied(from)))
            else t.state.reg == s.reg && PaidInTurn(s.balances, t.state.balances, t.outcome, from, BOND, x)
  {
    PaymentEffect(s.balances, from, BOND, x);
  }

  lemma SafetyBondEffect(s: State, from: Address, x: nat)
    ensures var t := Apply(s, DepositSafetyBond(from, x));
            if x == 0 then t == Step(s, Ok)
            else if from.Reserved? then t == Step(s, Err(ReservedAddressTransferDenied(from)))
            else t.state.reg == s.reg && PaidInTurn(s.balances, t.state.balances, t.outcome, from, SAFETY, x)
  {
    PaymentEffect(s.balances, from, SAFETY, x);
  }

  lemma DisburseEffect(s: State, to: Address, x: nat)
    ensures var t := Apply(s, DisburseTreasury(to, x));
            if x == 0 then t == Step(s, Ok)
            else if to.Reserved? then t == Step(s, Err(ReservedAddressTransferDenied(to)))
            else t.state.reg == s.reg && PaidInTurn(s.balances, t.state.balances, t.outcome, TREASURY, to, x)
  {
    PaymentEffect(s.balances, TREASURY, to, x);
  }

  lemma ClaimEffect(s: State, to: Address, x: nat)
    ensures var t := Apply(s, ClaimInsurance(to, x));
            if x == 0 then t == Step(s, Ok)
            else if to.Reserved? then t == Step(s, Err(ReservedAddressTransferDenied(to)))
            else t.state.reg == s.reg && PaidInTurn(s.balances, t.state.balances, t.outcome, INSURANCE, to, x)
  {
    PaymentEffect(s.balances, INSURANCE, to, x);
  }

  // ----- New money and rewards -----

  /** Genesis works at height 0 only and pays every entry of its list. */
  lemma GenesisEffect(s: State, cs: Credits)
    ensures var t, b := Apply(s, GenesisAllocation(cs)), s.balances;
            && (s.height != 0 ==> t == Step(s, Err(GenesisAfterBootstrap(s.height))))
            && (t.outcome.Ok? <==> s.height == 0 && CreditsFit(b, cs))
            && (t.outcome.Err? ==> t.state == s)
            && (t.outcome.Ok? ==>
                  t.state.reg == s.reg && forall a :: Bal(t.state.balances, a) == Bal(b, a) + SumTo(cs, a))
  {
    CreditManyPays(s.balances, cs);
  }

  ghost predicate MintPays(b: Ledger, c: Ledger, authority: nat, validator: nat, treasury: nat)
  {
    forall a :: Bal(c, a) == Bal(b, a) + (if a == Reserved(AuthorityRewardsPool) then authority
                                          else if a == Reserved(ValidatorRewardsPool) then validator
                                          else if a == Reserved(TreasuryAccount) then treasury
                                          else 0)
  }

  lemma MintSums(x: nat, y: nat, z: nat, a: Address)
    ensures SumTo(MintCredits(x, y, z), a) == (if a == Reserved(AuthorityRewardsPool) then x
                                               else if a == Reserved(ValidatorRewardsPool) then y
                                               else if a == Reserved(TreasuryAccount) then z
                                               else 0)
  {
    var cs := MintCredits(x, y, z);
    assert cs[..2][..1] == [cs[0]];
    SingleCredit(cs[0], a);
  }

  /** A mint pays each pool its share, in an epoch later than the last one minted,
      and remembers the epoch. */
  lemma MintEffect(s: State, epoch: nat, x: nat, y: nat, z: nat)
    ensures var t, b := Apply(s, MintInflation(epoch, x, y, z)), s.balances;
            && (epoch <= s.reg.lastMinted ==> t == Step(s, Err(InflationEpochAlreadyMinted(epoch, s.reg.lastMinted))))
            && (t.outcome.Ok? <==> epoch > s.reg.lastMinted
                                   && !CreditFails(b, Reserved(AuthorityRewardsPool), x)
                                   && !CreditFails(b, Reserved(ValidatorRewardsPool), y)
                                   && !CreditFails(b, Reserved(TreasuryAccount), z))
            && (t.outcome.Err? ==> t.state == s)
            && (t.outcome.Ok? ==> MintPays(b, t.state.balances, x, y, z) && t.state.reg == s.reg.(lastMinted := epoch))
  {
    var cs := MintCredits(x, y, z);
    forall a ensures SumTo(cs, a) == (if a == Reserved(AuthorityRewardsPool) then x
                                      else if a == Reserved(ValidatorRewardsPool) then y
                                      else if a == Reserved(TreasuryAccount) then z
                                      else 0)
    {
      MintSums(x, y, z, a);
    }
    CreditManyPays(s.balances, cs);
  }

  lemma {:induction false} AllUsers(cs: Credits)
    ensures FirstReserved(cs) == [] <==> forall c | c in cs :: c.0.User?
    ensures FirstReserved(cs) == [] ==> forall a: Address | a.Reserved? :: SumTo(cs, a) == 0
  {
    if cs != [] {
      var init := cs[..|cs| - 1];
      AllUsers(init);
      assert cs == init + [cs[|cs| - 1]];
      assert forall c :: c in cs <==> c in init || c == cs[|cs| - 1];
    }
  }

  /** Rewards go from the ring's pool to the users of the list, each entry once, in an
      epoch later than the ring's last one, which is then remembered. */
  lemma RewardsEffect(s: State, epoch: nat, ring: Ring, cs: Credits)
    ensures var t, b, pool := Apply(s, DistributeRewards(epoch, ring, cs)), s.balances, RewardsPool(ring);
            && (epoch <= LastRewards(s.reg, ring) ==>
                  t == Step(s, Err(RewardsEpochAlreadyDistributed(ring, epoch, LastRewards(s.reg, ring)))))
            && (t.outcome.Ok? <==> epoch > LastRewards(s.reg, ring) && (forall c | c in cs :: c.0.User?)
                                   && (Total(cs) == 0
                                       || (Total(cs) <= Lesser(U128_MAX, Bal(b, pool)) && CreditsFit(b, cs))))
            && (t.outcome.Err? ==> t.state == s)
            && (t.outcome.Ok? ==>
                  && Total(cs) <= Bal(b, pool)
                  && (forall a :: Bal(t.state.balances, a)
                               == if a == pool then Bal(b, a) - Total(cs) else Bal(b, a) + SumTo(cs, a))
                  && t.state.reg == WithLastRewards(s.reg, ring, epoch))
  {
    ApplyParts(s, DistributeRewards(epoch, ring, cs));
    AllUsers(cs);
    DrainPays(s.balances, RewardsPool(ring), cs);
    if FirstReserved(cs) == [] && Total(cs) <= Bal(s.balances, RewardsPool(ring)) {
      PoolRoom(s.balances, RewardsPool(ring), cs);
    }
  }

  /** Draining an account that is not on the list makes no room for the list. */
  lemma PoolRoom(b: Ledger, pool: Address, cs: Credits)
    requires Total(cs) <= Bal(b, pool) && SumTo(cs, pool) == 0
    ensures CreditsFit(Debit(b, pool, Total(cs)), cs) <==> CreditsFit(b, cs)
  {
    var d := Debit(b, pool, Total(cs));
    forall a ensures SumTo(cs, a) > 0 ==> Bal(d, a) == Bal(b, a) {}
  }

  /** Slashed funds are new money for users, insurance and treasury; a distribution
      that stops half-way has paid the credits that fit together from the front. */
  lemma DistributionEffect(s: State, cs: Credits, insurance: nat, treasury: nat)
    ensures var t, b := Apply(s, DistributeSlashedFunds(cs, insurance, treasury)), s.balances;
            var all := SlashedCredits(cs, insurance, treasury);
            && t.state.reg == s.reg
            && (t.outcome.Ok? <==> (forall c | c in cs :: c.0.User?) && CreditsFit(b, all))
            && ((exists c :: c in cs && c.0.Reserved?) ==>
                  t.state == s && t.outcome.error.ReservedAddressInCounterparties?)
            && (t.outcome.Ok? ==>
                  forall a :: Bal(t.state.balances, a) == Bal(b, a) + SumTo(cs, a)
                                + (if a == INSURANCE then insurance else if a == TREASURY then treasury else 0))
            && (t.outcome.Err? && t.outcome.error.DistributionOverflow? ==>
                  forall a :: Bal(t.state.balances, a) == Bal(b, a) + SumTo(all[..FittingPrefix(b, all)], a))
  {
    var all := SlashedCredits(cs, insurance, treasury);
    ApplyParts(s, DistributeSlashedFunds(cs, insurance, treasury));
    AllUsers(cs);
    CreditInTurnPays(s.balances, all);
    forall a ensures SumTo(all, a) == SumTo(cs, a)
                                    + (if a == INSURANCE then insurance else if a == TREASURY then treasury else 0)
    {
      SlashedSums(cs, insurance, treasury, a);
    }
    InTurnPrefix(s.balances, all);
  }

  lemma SlashedSums(cs: Credits, insurance: nat, treasury: nat, a: Address)
    ensures SumTo(SlashedCredits(cs, insurance, treasury), a)
         == SumTo(cs, a) + (if a == INSURANCE then insurance else if a == TREASURY then treasury else 0)
  {
    var tail := [(INSURANCE, insurance), (TREASURY, treasury)];
    SumToSplits(cs, tail, a);
    assert tail[..1] == [tail[0]];
    SingleCredit(tail[0], a);
  }

  lemma {:induction false} InTurnPrefix(b: Ledger, cs: Credits)
    ensures forall a :: Bal(CreditInTurn(b, cs).balances, a) == Bal(b, a) + SumTo(cs[..FittingPrefix(b, cs)], a)
    decreases |cs|
  {
    CreditInTurnPays(b, cs);
    assert cs[..|cs|] == cs;
    if cs != [] && !CreditsFit(b, cs) {
      var init := cs[..|cs| - 1];
      InTurnPrefix(b, init);
      assert init[..FittingPrefix(b, init)] == cs[..FittingPrefix(b, cs)];
    }
  }

  // ----- Registries without money -----

  /** A fresh obligation is pending and carries the terms it was submitted with. */
  lemma ForceIncludeEffect(s: State, tx: seq<Byte>, deadline: nat, submitter: Address, nonce: nat)
    ensures var t := Apply(s, L2ForceInclude(tx, deadline, submitter, nonce));
            var id := ObligationOf(tx, deadline, submitter, nonce);
            t == if id in s.reg.obligations then Step(s, Err(ForceIncludeAlreadyRegistered(id)))
                 else Step(s.(reg := s.reg.(obligations :=
                                 s.reg.obligations[id := Obligation(deadline, submitter, nonce, Pending)])), Ok)
  {
  }

  lemma HonoredEffect(s: State, id: Digest)
    ensures var t, obs := Apply(s, MarkForceIncludeHonored(id)), s.reg.obligations;
            t == if id !in obs then Step(s, Err(ForceIncludeNotFound(id)))
                 else if obs[id].status != Pending then Step(s, Err(ForceIncludeNotPending(id, obs[id].status)))
                 else Step(s.(reg := s.reg.(obligations := obs[id := obs[id].(status := Honored)])), Ok)
  {
  }

  /** A batch is committed exactly under a verified proof and the chain's pinned key. */
  lemma CommitEffect(s: State, chain: nat, batch: nat, vk: nat, verified: bool)
    ensures var t := Apply(s, CommitL2StateRoot(chain, batch, vk, verified));
            var pinned := if chain in s.reg.vks then s.reg.vks[chain] else 0;
            t == if !verified || vk == 0 then Step(s, Err(L2VerifierRejected))
                 else if pinned != vk then Step(s, Err(L2VkPinMismatch(pinned, vk)))
                 else Step(s.(reg := s.reg.(batches := s.reg.batches + {(chain, batch)})), Ok)
  {
  }

  lemma SetKeyEffect(s: State, chain: nat, aggregation: nat, range: nat)
    ensures Apply(s, SetL2VerifyingKey(chain, aggregation, range))
         == if aggregation == 0 && range == 0 then Step(s, Err(SetL2VkAllZeros))
            else Step(s.(reg := s.reg.(vks := s.reg.vks[chain := aggregation])), Ok)
  {
  }

  lemma AddAssetEffect(s: State, id: nat, contractBytes: nat, nameBytes: nat, symbolBytes: nat)
    ensures Apply(s, AddBridgeAsset(id, contractBytes, nameBytes, symbolBytes))
         == if contractBytes > 64 then Step(s, Err(FieldTooLong(contractBytes, 64)))
            else if nameBytes > 64 then Step(s, Err(FieldTooLong(nameBytes, 64)))
            else if symbolBytes > 16 then Step(s, Err(FieldTooLong(symbolBytes, 16)))
            else if id in s.reg.assets then Step(s, Err(BridgeAssetAlreadyRegistered(id)))
            else Step(s.(reg := s.reg.(assets := s.reg.assets[id := AssetActive])), Ok)
  {
  }

  /** Pausing and removing mark a known asset, whatever its state. */
  lemma MarkAssetEffect(s: State, id: nat)
    ensures Apply(s, PauseBridgeAsset(id))
         == if id !in s.reg.assets then Step(s, Err(BridgeAssetNotFound(id)))
            else Step(s.(reg := s.reg.(assets := s.reg.assets[id := AssetPaused])), Ok)
    ensures Apply(s, RemoveBridgeAsset(id))
         == if id !in s.reg.assets then Step(s, Err(BridgeAssetNotFound(id)))
            else Step(s.(reg := s.reg.(assets := s.reg.assets[id := AssetRemoved])), Ok)
  {
  }

  lemma PostEffect(s: State)
    ensures Apply(s, PostL2DA) == Step(s, Ok)
  {
  }
}
