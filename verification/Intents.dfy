/** What every intent does to the ledger (substrate.rs, `apply_intent`), as a
    function of the state, taken apart into what each arm consists of: the gates
    it checks, the registry entries it writes before money moves, the move
    itself, and the registry entries it writes after a successful move.  The
    Authority and Validator arms of the source are mirror images and are one arm
    with a ring here. */
module Intents {
  import opened Balances
  import opened Registries

  const LIVENESS_SLASH_BPS: nat := 500
  const SNITCH_BOUNTY_BPS: nat := 1_000
  const SNITCH_BOUNTY_CAP: nat := 1_000_000
  const EXIT_COOLDOWN_BLOCKS: nat := 2_419_200
  const MAX_SOURCE_CONTRACT_BYTES: nat := 64
  const MAX_ASSET_NAME_BYTES: nat := 64
  const MAX_ASSET_SYMBOL_BYTES: nat := 16

  datatype SlashReason = MissedForceInclude | Equivocation | InvalidBatch | Downtime

  datatype Intent =
    | Transfer(from: Address, to: Address, amount: nat)
    | GenesisAllocation(allocations: Credits)
    | MintInflation(epoch: nat, authorityShare: nat, validatorShare: nat, treasuryShare: nat)
    | DistributeRewards(epoch: nat, ring: Ring, recipients: Credits)
    | Delegate(from: Address, validator: nat, amount: nat)
    | Admit(ring: Ring, id: nat, stake: nat, mldsaKey: seq<Byte>, blsKey: seq<Byte>)
    | Exit(ring: Ring, id: nat)
    | Eject(ring: Ring, id: nat)
    | DepositStake(ring: Ring, from: Address, id: nat, amount: nat)
    | WithdrawStake(ring: Ring, to: Address, id: nat, amount: nat)
    | CommitL2StateRoot(chain: nat, batch: nat, vk: nat, verified: bool)
    | SetL2VerifyingKey(chain: nat, aggregationVk: nat, rangeCommitment: nat)
    | L1Lock(user: Address, amount: nat, asset: AssetRef)
    | L2BurnProven(batch: nat, recipient: Address, amount: nat, path: seq<Byte>, asset: AssetRef, chain: nat)
    | L2ForceInclude(tx: seq<Byte>, deadline: nat, submitter: Address, nonce: nat)
    | SlashSequencer(reason: SlashReason, offense: Digest)
    | MarkForceIncludeHonored(obligation: Digest)
    | EjectSequencer(obligation: Digest, ejector: Address)
    | DepositSequencerBond(from: Address, amount: nat)
    | DepositSafetyBond(from: Address, amount: nat)
    | DisburseTreasury(recipient: Address, amount: nat)
    | ClaimInsurance(recipient: Address, amount: nat)
    | PostL2DA
    | DistributeSlashedFunds(counterparties: Credits, insuranceShare: nat, treasuryShare: nat)
    | AddBridgeAsset(assetId: nat, contractBytes: nat, nameBytes: nat, symbolBytes: nat)
    | PauseBridgeAsset(assetId: nat)
    | RemoveBridgeAsset(assetId: nat)

  datatype Error =
    | InsufficientBalance(from: Address, have: nat, need: nat)
    | BalanceOverflow(to: Address)
    | DistributionOverflow(to: Address)
    | ReservedAddressTransferDenied(addr: Address)
    | ReservedAddressInCounterparties(addr: Address)
    | GenesisAfterBootstrap(height: nat)
    | InflationEpochAlreadyMinted(attempted: nat, last: nat)
    | RewardsEpochAlreadyDistributed(ring: Ring, attempted: nat, last: nat)
    | SlotAlreadyOccupied(ring: Ring, id: nat)
    | SlotNotFound(ring: Ring, id: nat)
    | SlotNotActive(ring: Ring, id: nat, status: SlotStatus)
    | SlotNotExiting(ring: Ring, id: nat, status: SlotStatus)
    | FieldTooLong(got: nat, max: nat)
    | DepositedStakeOverflow(id: nat)
    | ExitCooldownNotElapsed(id: nat, required: nat, current: nat)
    | WithdrawalExceedsDeposit(id: nat, want: nat, have: nat)
    | L2VerifierRejected
    | L2VkPinMismatch(expected: nat, got: nat)
    | SetL2VkAllZeros
    | L2BatchNotCommitted(chain: nat, batch: nat)
    | L2BurnAlreadyClaimed(burn: Digest)
    | ForceIncludeAlreadyRegistered(obligation: Digest)
    | ForceIncludeNotFound(obligation: Digest)
    | ForceIncludeNotPending(obligation: Digest, was: ObligationStatus)
    | ForceIncludeNotSlashed(obligation: Digest, was: ObligationStatus)
    | SequencerEjectionAlreadyRecorded(obligation: Digest)
    | EquivocationAlreadyRecorded(offense: Digest)
    | BridgeAssetNotFound(asset: nat)
    | BridgeAssetNotActive(asset: nat, found: AssetStatus)
    | BridgeAssetAlreadyRegistered(asset: nat)

  datatype Outcome = Ok | Err(error: Error)

  datatype State = State(balances: Ledger, reg: Registries, height: nat)

  // ----- Arithmetic -----

  /** u128 multiplication of the release build: the product wraps. */
  function WrapMul(x: nat, y: nat): (p: nat)
    ensures p <= x * y && p <= U128_MAX
    ensures x * y <= U128_MAX ==> p == x * y
  {
    if x * y <= U128_MAX then x * y else x * y % (U128_MAX + 1)
  }

  function LivenessSlash(bond: nat): nat
  {
    WrapMul(bond, LIVENESS_SLASH_BPS) / 10_000
  }

  /** Saturating product, so a huge slash yields the cap. */
  function SnitchBounty(slash: nat): nat
  {
    var product := if slash * SNITCH_BOUNTY_BPS <= U128_MAX then slash * SNITCH_BOUNTY_BPS else U128_MAX;
    var pct := product / 10_000;
    if pct < SNITCH_BOUNTY_CAP then pct else SNITCH_BOUNTY_CAP
  }

  function InsuranceShare(slash: nat): nat
  {
    WrapMul(slash, 70) / 100
  }

  function SaturatingAdd64(x: nat, y: nat): nat
  {
    if x + y <= U64_MAX then x + y else U64_MAX
  }

  function Lesser(x: nat, y: nat): nat
  {
    if x < y then x else y
  }

  // ----- Balance primitives: new balances and the outcome -----

  datatype Moved = Moved(balances: Ledger, outcome: Outcome)

  function CreditUnchecked(b: Ledger, a: Address, x: nat): Moved
  {
    if x == 0 then Moved(b, Ok)
    else if Bal(b, a) + x > U128_MAX then Moved(b, Err(DistributionOverflow(a)))
    else Moved(Credit(b, a, x), Ok)
  }

  function DebitUnchecked(b: Ledger, a: Address, x: nat): Moved
  {
    if x == 0 then Moved(b, Ok)
    else if Bal(b, a) < x then Moved(b, Err(InsufficientBalance(a, Bal(b, a), x)))
    else Moved(Debit(b, a, x), Ok)
  }

  /** Debit and then credit, stopping at the first failure: not atomic. */
  function DebitThenCredit(b: Ledger, from: Address, to: Address, x: nat): Moved
  {
    var d := DebitUnchecked(b, from, x);
    if d.outcome.Err? then d else CreditUnchecked(d.balances, to, x)
  }

  /** Both checks first, then the move. */
  function TransferInternal(b: Ledger, from: Address, to: Address, x: nat): Moved
  {
    if x == 0 then Moved(b, Ok)
    else if Bal(b, from) < x then Moved(b, Err(InsufficientBalance(from, Bal(b, from), x)))
    else if from == to then Moved(b, Ok)
    else if Bal(b, to) + x > U128_MAX then Moved(b, Err(DistributionOverflow(to)))
    else Moved(Credit(Debit(b, from, x), to, x), Ok)
  }

  function CreditManyAtomic(b: Ledger, cs: Credits): Moved
  {
    var bad := FirstOverflow(b, cs);
    if bad != [] then Moved(b, Err(DistributionOverflow(bad[0]))) else Moved(CreditAll(b, cs), Ok)
  }

  function DrainAndCreditAtomic(b: Ledger, from: Address, cs: Credits): Moved
  {
    var total := Total(cs);
    if total > U128_MAX then Moved(b, Err(DistributionOverflow(from)))
    else if total == 0 then Moved(b, Ok)
    else if Bal(b, from) < total then Moved(b, Err(InsufficientBalance(from, Bal(b, from), total)))
    else CreditManyOrKeep(b, Debit(b, from, total), cs)
  }

  /** Credits on top of `drained`, or `b` untouched when one overflows. */
  function CreditManyOrKeep(b: Ledger, drained: Ledger, cs: Credits): Moved
  {
    var m := CreditManyAtomic(drained, cs);
    if m.outcome.Err? then Moved(b, m.outcome) else m
  }

  /** Credits one by one, stopping at the first failure: not atomic. */
  function CreditInTurn(b: Ledger, cs: Credits): Moved
    decreases |cs|
  {
    if cs == [] then Moved(b, Ok)
    else
      var m := CreditInTurn(b, cs[..|cs| - 1]);
      if m.outcome.Err? then m else CreditUnchecked(m.balances, cs[|cs| - 1].0, cs[|cs| - 1].1)
  }

  // ----- Composite moves -----

  /** A slash split 70 to 30 between the insurance pool and the treasury. */
  function Waterfall(x: nat): Credits
    requires InsuranceShare(x) <= x
  {
    [(INSURANCE, InsuranceShare(x)), (TREASURY, x - InsuranceShare(x))]
  }

  lemma ShareFits(x: nat)
    ensures InsuranceShare(x) <= x
  {
  }

  /** Drain a bond by `slash` and split it. */
  function SlashMoves(b: Ledger, bond: Address, slash: nat): Moved
    requires InsuranceShare(slash) <= slash
  {
    var d := DebitUnchecked(b, bond, slash);
    if d.outcome.Err? then d else CreditInTurn(d.balances, Waterfall(slash))
  }

  /** A bounty paid out of the treasury as far as it reaches. */
  function PayBounty(b: Ledger, to: Address, bounty: nat): Moved
  {
    DebitThenCredit(b, TREASURY, to, Lesser(bounty, Bal(b, TREASURY)))
  }

  /** A strike against the liveness bond: slash, split, pay the submitter. */
  function StrikeMove(b: Ledger, submitter: Address): Moved
  {
    var slash := LivenessSlash(Bal(b, BOND));
    ShareFits(slash);
    var m := SlashMoves(b, BOND, slash);
    if m.outcome.Err? || submitter.Reserved? then m else PayBounty(m.balances, submitter, SnitchBounty(slash))
  }

  /** The whole safety bond is forfeit. */
  function ForfeitMove(b: Ledger): Moved
  {
    ShareFits(Bal(b, SAFETY));
    SlashMoves(b, SAFETY, Bal(b, SAFETY))
  }

  /** An ejected slot's deposit, clamped to the pool, through the waterfall. */
  function EjectMove(b: Ledger, pool: Address, deposited: nat): Moved
  {
    var drained := Lesser(deposited, Bal(b, pool));
    ShareFits(drained);
    if drained == 0 then Moved(b, Ok) else DrainAndCreditAtomic(b, pool, Waterfall(drained))
  }

  function EjectorBounty(b: Ledger): nat
  {
    SnitchBounty(LivenessSlash(Bal(b, BOND)))
  }

  /** A user transfer reports its overflow under another name. */
  function UserTransfer(b: Ledger, from: Address, to: Address, x: nat): Moved
  {
    var m := TransferInternal(b, from, to, x);
    if m.outcome.Err? && m.outcome.error.DistributionOverflow? then Moved(b, Err(BalanceOverflow(to))) else m
  }

  function MintCredits(authority: nat, validator: nat, treasury: nat): Credits
  {
    [(RewardsPool(AuthorityRing), authority), (RewardsPool(ValidatorRing), validator), (TREASURY, treasury)]
  }

  function SlashedCredits(counterparties: Credits, insurance: nat, treasury: nat): Credits
  {
    counterparties + [(INSURANCE, insurance), (TREASURY, treasury)]
  }

  // ----- Gates -----

  /** The checks an arm makes before anything moves: empty if all pass, else the
      first failure. */
  function Gate(s: State, i: Intent): (e: seq<Error>)
    ensures |e| <= 1
  {
    match i
    case Transfer(from, to, _) => ReservedGate(from) + if from.Reserved? then [] else ReservedGate(to)
    case GenesisAllocation(_) => if s.height != 0 then [GenesisAfterBootstrap(s.height)] else []
    case MintInflation(epoch, _, _, _) =>
      if epoch <= s.reg.lastMinted then [InflationEpochAlreadyMinted(epoch, s.reg.lastMinted)] else []
    case DistributeRewards(epoch, ring, cs) => RewardsGate(s.reg, epoch, ring, cs)
    case Delegate(from, id, x) =>
      if x == 0 then [] else if from.Reserved? then ReservedGate(from)
      else PledgeGate(s.reg, ValidatorRing, id, Delegated(s.reg, id, from), x)
    case Admit(ring, id, _, mldsa, bls) => AdmitGate(s.reg, ring, id, mldsa, bls)
    case Exit(ring, id) => ActiveGate(s.reg, ring, id)
    case Eject(ring, id) => if id !in SlotsOf(s.reg, ring) then [SlotNotFound(ring, id)] else []
    case DepositStake(ring, from, id, x) =>
      if x == 0 then [] else if from.Reserved? then ReservedGate(from)
      else PledgeGate(s.reg, ring, id, Slot(s.reg, ring, id).deposited, x)
    case WithdrawStake(ring, to, id, x) =>
      if x == 0 then [] else if to.Reserved? then ReservedGate(to)
      else WithdrawGate(s.reg, s.height, ring, id, x)
    case CommitL2StateRoot(chain, _, vk, verified) =>
      if !verified || vk == 0 then [L2VerifierRejected]
      else if PinnedVk(s.reg, chain) != vk then [L2VkPinMismatch(PinnedVk(s.reg, chain), vk)] else []
    case SetL2VerifyingKey(_, aggregation, range) =>
      if aggregation == 0 && range == 0 then [SetL2VkAllZeros] else []
    case L1Lock(_, x, asset) => if x == 0 then [] else AssetGate(s.reg, asset)
    case L2BurnProven(batch, to, x, path, asset, chain) =>
      if x == 0 then [] else BurnGate(s.reg, BurnOf(chain, batch, to, x, path, asset))
    case L2ForceInclude(tx, deadline, submitter, nonce) =>
      var id := ObligationOf(tx, deadline, submitter, nonce);
      if id in s.reg.obligations then [ForceIncludeAlreadyRegistered(id)] else []
    case SlashSequencer(reason, id) =>
      if reason == MissedForceInclude then StatusGate(s.reg, id)
      else if reason != Downtime && id in s.reg.offenses then [EquivocationAlreadyRecorded(id)] else []
    case MarkForceIncludeHonored(id) => StatusGate(s.reg, id)
    case EjectSequencer(id, ejector) => if ejector.Reserved? then ReservedGate(ejector) else EjectionGate(s.reg, id)
    case DepositSequencerBond(from, x) => if x == 0 then [] else ReservedGate(from)
    case DepositSafetyBond(from, x) => if x == 0 then [] else ReservedGate(from)
    case DisburseTreasury(to, x) => if x == 0 then [] else ReservedGate(to)
    case ClaimInsurance(to, x) => if x == 0 then [] else ReservedGate(to)
    case PostL2DA => []
    case DistributeSlashedFunds(cs, _, _) =>
      if FirstReserved(cs) != [] then [ReservedAddressInCounterparties(FirstReserved(cs)[0])] else []
    case AddBridgeAsset(id, c, n, y) => AssetFieldsGate(s.reg, id, c, n, y)
    case PauseBridgeAsset(id) => if id !in s.reg.assets then [BridgeAssetNotFound(id)] else []
    case RemoveBridgeAsset(id) => if id !in s.reg.assets then [BridgeAssetNotFound(id)] else []
  }

  function ReservedGate(a: Address): (e: seq<Error>)
    ensures |e| <= 1
  {
    if a.Reserved? then [ReservedAddressTransferDenied(a)] else []
  }

  function FirstReserved(cs: Credits): seq<Address>
  {
    if cs == [] then []
    else
      var earlier := FirstReserved(cs[..|cs| - 1]);
      if earlier != [] then earlier
      else if cs[|cs| - 1].0.Reserved? then [cs[|cs| - 1].0] else []
  }

  function RewardsGate(r: Registries, epoch: nat, ring: Ring, cs: Credits): (e: seq<Error>)
    ensures |e| <= 1
  {
    if epoch <= LastRewards(r, ring) then [RewardsEpochAlreadyDistributed(ring, epoch, LastRewards(r, ring))]
    else if FirstReserved(cs) != [] then [ReservedAddressTransferDenied(FirstReserved(cs)[0])]
    else []
  }

  /** The slot exists and is active. */
  function ActiveGate(r: Registries, ring: Ring, id: nat): (e: seq<Error>)
    ensures |e| <= 1
  {
    if id !in SlotsOf(r, ring) then [SlotNotFound(ring, id)]
    else if SlotsOf(r, ring)[id].status != Active then [SlotNotActive(ring, id, SlotsOf(r, ring)[id].status)]
    else []
  }

  /** ... and adding `x` to what is pledged stays inside u64. */
  function PledgeGate(r: Registries, ring: Ring, id: nat, pledged: nat, x: nat): (e: seq<Error>)
    ensures |e| <= 1
  {
    if ActiveGate(r, ring, id) != [] then ActiveGate(r, ring, id)
    else if x > U64_MAX || pledged + x > U64_MAX then [DepositedStakeOverflow(id)]
    else []
  }

  function AdmitGate(r: Registries, ring: Ring, id: nat, mldsa: seq<Byte>, bls: seq<Byte>): (e: seq<Error>)
    ensures |e| <= 1
  {
    if |mldsa| > MAX_MLDSA_PK_BYTES then [FieldTooLong(|mldsa|, MAX_MLDSA_PK_BYTES)]
    else if |bls| > MAX_BLS_PK_BYTES then [FieldTooLong(|bls|, MAX_BLS_PK_BYTES)]
    else if id in SlotsOf(r, ring) then [SlotAlreadyOccupied(ring, id)]
    else []
  }

  /** The first height at which an exiting slot may withdraw. */
  function ReleaseHeight(rec: SlotRecord): nat
  {
    SaturatingAdd64(rec.exitHeight, EXIT_COOLDOWN_BLOCKS)
  }

  function WithdrawGate(r: Registries, height: nat, ring: Ring, id: nat, x: nat): (e: seq<Error>)
    ensures |e| <= 1
  {
    if id !in SlotsOf(r, ring) then [SlotNotFound(ring, id)]
    else
      var rec := SlotsOf(r, ring)[id];
      if rec.status != Exiting then [SlotNotExiting(ring, id, rec.status)]
      else if height < ReleaseHeight(rec) then [ExitCooldownNotElapsed(id, ReleaseHeight(rec), height)]
      else if x > rec.deposited then [WithdrawalExceedsDeposit(id, x, rec.deposited)]
      else []
  }

  function PinnedVk(r: Registries, chain: nat): nat
  {
    if chain in r.vks then r.vks[chain] else 0
  }

  function AssetGate(r: Registries, asset: AssetRef): (e: seq<Error>)
    ensures |e| <= 1
  {
    match asset
    case Native => []
    case Asset(id) =>
      if id !in r.assets then [BridgeAssetNotFound(id)]
      else if r.assets[id] != AssetActive then [BridgeAssetNotActive(id, r.assets[id])]
      else []
  }

  function BurnGate(r: Registries, id: Digest): (e: seq<Error>)
    requires id.BurnOf?
    ensures |e| <= 1
  {
    if id.recipient.Reserved? then ReservedGate(id.recipient)
    else if AssetGate(r, id.asset) != [] then AssetGate(r, id.asset)
    else if (id.chain, id.batch) !in r.batches then [L2BatchNotCommitted(id.chain, id.batch)]
    else if id in r.nullifiers then [L2BurnAlreadyClaimed(id)]
    else []
  }

  /** The obligation exists and is pending. */
  function StatusGate(r: Registries, id: Digest): (e: seq<Error>)
    ensures |e| <= 1
  {
    if id !in r.obligations then [ForceIncludeNotFound(id)]
    else if r.obligations[id].status != Pending then [ForceIncludeNotPending(id, r.obligations[id].status)]
    else []
  }

  function EjectionGate(r: Registries, id: Digest): (e: seq<Error>)
    ensures |e| <= 1
  {
    if id !in r.obligations then [ForceIncludeNotFound(id)]
    else if r.obligations[id].status != Slashed then [ForceIncludeNotSlashed(id, r.obligations[id].status)]
    else if id in r.ejections then [SequencerEjectionAlreadyRecorded(id)]
    else []
  }

  function AssetFieldsGate(r: Registries, id: nat, contractBytes: nat, nameBytes: nat, symbolBytes: nat)
    : (e: seq<Error>)
    ensures |e| <= 1
  {
    if contractBytes > MAX_SOURCE_CONTRACT_BYTES then [FieldTooLong(contractBytes, MAX_SOURCE_CONTRACT_BYTES)]
    else if nameBytes > MAX_ASSET_NAME_BYTES then [FieldTooLong(nameBytes, MAX_ASSET_NAME_BYTES)]
    else if symbolBytes > MAX_ASSET_SYMBOL_BYTES then [FieldTooLong(symbolBytes, MAX_ASSET_SYMBOL_BYTES)]
    else if id in r.assets then [BridgeAssetAlreadyRegistered(id)]
    else []
  }

  // ----- Registry writes -----
  //
  // One function per registry: what it holds after an intent got past its gates.
  // Nullifiers, strikes, offenses and ejections are written before money moves
  // and stay when the move fails; everything else is written after (`ok`).

  /** The intent rewrites a slot of this ring. */
  predicate WritesSlot(r: Registries, ring: Ring, i: Intent)
  {
    match i
    case Admit(g, _, _, _, _) => g == ring
    case Exit(g, _) => g == ring
    case Eject(g, _) => g == ring
    case DepositStake(g, _, _, x) => g == ring && x > 0
    case WithdrawStake(g, _, id, x) => g == ring && 0 < x <= Slot(r, ring, id).deposited
    case _ => false
  }

  function SlotAfter(rec: SlotRecord, height: nat, i: Intent): SlotRecord
  {
    match i
    case Admit(_, _, stake, mldsa, bls) => SlotRecord(mldsa, bls, stake, 0, 0, Active)
    case Exit(_, _) => rec.(status := Exiting, exitHeight := height)
    case Eject(_, _) => rec.(deposited := 0, status := Ejected)
    case DepositStake(_, _, _, x) => rec.(deposited := rec.deposited + x)
    case WithdrawStake(_, _, _, x) => if x <= rec.deposited then rec.(deposited := rec.deposited - x) else rec
    case _ => rec
  }

  function SlotsAfter(r: Registries, ring: Ring, height: nat, i: Intent): Slots
  {
    if WritesSlot(r, ring, i) then SlotsOf(r, ring)[i.id := SlotAfter(Slot(r, ring, i.id), height, i)]
    else SlotsOf(r, ring)
  }

  function DelegationsAfter(r: Registries, i: Intent): map<(nat, Address), nat>
  {
    if i.Delegate? && i.amount > 0 then
      r.delegations[(i.validator, i.from) := Delegated(r, i.validator, i.from) + i.amount]
    else r.delegations
  }

  /** The digest under which a burn is recorded as paid. */
  function BurnId(i: Intent): Digest
    requires i.L2BurnProven?
  {
    BurnOf(i.chain, i.batch, i.recipient, i.amount, i.path, i.asset)
  }

  function NullifiersAfter(r: Registries, i: Intent): set<Digest>
  {
    if i.L2BurnProven? && i.amount > 0 then r.nullifiers + {BurnId(i)} else r.nullifiers
  }

  predicate Strikes(i: Intent)
  {
    i.SlashSequencer? && i.reason == MissedForceInclude
  }

  function WithStatus(obligations: map<Digest, Obligation>, id: Digest, status: ObligationStatus)
    : map<Digest, Obligation>
  {
    if id in obligations then obligations[id := obligations[id].(status := status)] else obligations
  }

  function ObligationsAfter(r: Registries, i: Intent, ok: bool): map<Digest, Obligation>
  {
    if Strikes(i) then WithStatus(r.obligations, i.offense, Slashed)
    else if !ok then r.obligations
    else if i.MarkForceIncludeHonored? then WithStatus(r.obligations, i.obligation, Honored)
    else if i.L2ForceInclude? then
      r.obligations[ObligationOf(i.tx, i.deadline, i.submitter, i.nonce)
                    := Obligation(i.deadline, i.submitter, i.nonce, Pending)]
    else r.obligations
  }

  function EjectionsAfter(r: Registries, i: Intent): map<Digest, Address>
  {
    if i.EjectSequencer? then r.ejections[i.obligation := i.ejector] else r.ejections
  }

  function OffensesAfter(r: Registries, i: Intent): map<Digest, Offense>
  {
    if !i.SlashSequencer? then r.offenses
    else if i.reason == Equivocation then r.offenses[i.offense := EquivocationOffense]
    else if i.reason == InvalidBatch then r.offenses[i.offense := InvalidBatchOffense]
    else r.offenses
  }

  function AssetsAfter(r: Registries, i: Intent): map<nat, AssetStatus>
  {
    match i
    case AddBridgeAsset(id, _, _, _) => r.assets[id := AssetActive]
    case PauseBridgeAsset(id) => r.assets[id := AssetPaused]
    case RemoveBridgeAsset(id) => r.assets[id := AssetRemoved]
    case _ => r.assets
  }

  function VksAfter(r: Registries, i: Intent): map<nat, nat>
  {
    if i.SetL2VerifyingKey? then r.vks[i.chain := i.aggregationVk] else r.vks
  }

  function BatchesAfter(r: Registries, i: Intent): set<(nat, nat)>
  {
    if i.CommitL2StateRoot? then r.batches + {(i.chain, i.batch)} else r.batches
  }

  function RewardsAfter(r: Registries, ring: Ring, i: Intent): nat
  {
    if i.DistributeRewards? && i.ring == ring then i.epoch else LastRewards(r, ring)
  }

  /** The registries after an intent whose move succeeded or failed. */
  function Written(r: Registries, height: nat, i: Intent, ok: bool): Registries
  {
    Registries(
      if ok then SlotsAfter(r, AuthorityRing, height, i) else r.authorities,
      if ok then SlotsAfter(r, ValidatorRing, height, i) else r.validators,
      if ok then DelegationsAfter(r, i) else r.delegations,
      if ok then VksAfter(r, i) else r.vks,
      if ok then BatchesAfter(r, i) else r.batches,
      NullifiersAfter(r, i),
      ObligationsAfter(r, i, ok),
      EjectionsAfter(r, i),
      OffensesAfter(r, i),
      if ok then AssetsAfter(r, i) else r.assets,
      if ok && i.MintInflation? then i.epoch else r.lastMinted,
      if ok then RewardsAfter(r, AuthorityRing, i) else r.lastAuthorityRewards,
      if ok then RewardsAfter(r, ValidatorRing, i) else r.lastValidatorRewards)
  }

  // ----- The move of each arm -----

  function MoveOf(b: Ledger, r: Registries, i: Intent): Moved
  {
    match i
    case Transfer(from, to, x) => UserTransfer(b, from, to, x)
    case GenesisAllocation(cs) => CreditManyAtomic(b, cs)
    case MintInflation(_, a, v, t) => CreditManyAtomic(b, MintCredits(a, v, t))
    case DistributeRewards(_, ring, cs) => DrainAndCreditAtomic(b, RewardsPool(ring), cs)
    case Delegate(from, _, x) => TransferInternal(b, from, StakePool(ValidatorRing), x)
    case DepositStake(ring, from, _, x) => TransferInternal(b, from, StakePool(ring), x)
    case WithdrawStake(ring, to, _, x) => TransferInternal(b, StakePool(ring), to, x)
    case Eject(ring, id) => EjectMove(b, StakePool(ring), Slot(r, ring, id).deposited)
    case L1Lock(user, x, _) => DebitThenCredit(b, user, ESCROW, x)
    case L2BurnProven(_, to, x, _, _, _) => DebitThenCredit(b, ESCROW, to, x)
    case SlashSequencer(reason, id) =>
      (match reason
       case MissedForceInclude =>
         if id in r.obligations then StrikeMove(b, r.obligations[id].submitter) else Moved(b, Ok)
       case Downtime => Moved(b, Ok)
       case _ => ForfeitMove(b))
    case EjectSequencer(_, ejector) => PayBounty(b, ejector, EjectorBounty(b))
    case DepositSequencerBond(from, x) => DebitThenCredit(b, from, BOND, x)
    case DepositSafetyBond(from, x) => DebitThenCredit(b, from, SAFETY, x)
    case DisburseTreasury(to, x) => DebitThenCredit(b, TREASURY, to, x)
    case ClaimInsurance(to, x) => DebitThenCredit(b, INSURANCE, to, x)
    case DistributeSlashedFunds(cs, insurance, treasury) => CreditInTurn(b, SlashedCredits(cs, insurance, treasury))
    case _ => Moved(b, Ok)
  }

  // ----- Putting it together -----

  datatype Step = Step(state: State, outcome: Outcome)

  function Apply(s: State, i: Intent): Step
  {
    var e := Gate(s, i);
    if e != [] then Step(s, Err(e[0]))
    else
      var m := MoveOf(s.balances, s.reg, i);
      Step(State(m.balances, Written(s.reg, s.height, i, m.outcome.Ok?), s.height), m.outcome)
  }

  // ----- Runs -----

  /** One thing that happens to the ledger: a block opens at some height, or an
      intent is attempted. */
  datatype Op = OpenBlock(height: nat) | Attempt(intent: Intent)

  function Do(s: State, op: Op): State
  {
    match op
    case OpenBlock(h) => s.(height := h)
    case Attempt(i) => Apply(s, i).state
  }

  function Run(s: State, ops: seq<Op>): State
    decreases |ops|
  {
    if ops == [] then s else Do(Run(s, ops[..|ops| - 1]), ops[|ops| - 1])
  }
}
