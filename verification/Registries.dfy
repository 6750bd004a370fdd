/** The registries the ledger keeps beside the balances, as typed maps. */
module Registries {
  import opened Balances

  type Byte = x: nat | x < 256

  datatype Ring = AuthorityRing | ValidatorRing

  function StakePool(ring: Ring): Address
  {
    match ring
    case AuthorityRing => Reserved(AuthorityStakePool)
    case ValidatorRing => Reserved(ValidatorStakePool)
  }

  function RewardsPool(ring: Ring): Address
  {
    match ring
    case AuthorityRing => Reserved(AuthorityRewardsPool)
    case ValidatorRing => Reserved(ValidatorRewardsPool)
  }

  datatype SlotStatus = Active | Exiting | Ejected

  /** One Authority or Validator slot (the two rings store the same fields). */
  datatype SlotRecord = SlotRecord(
    mldsaKey: seq<Byte>,
    blsKey: seq<Byte>,
    stake: nat,
    deposited: nat,
    exitHeight: nat,
    status: SlotStatus)

  type Slots = map<nat, SlotRecord>

  const MAX_MLDSA_PK_BYTES: nat := 2048
  const MAX_BLS_PK_BYTES: nat := 128

  /** Digests are kept symbolic: a digest of some fields is those fields under a
      tag, so it is injective and never meets a digest of another kind. */
  datatype Digest =
    | Raw(value: nat)
    | ObligationOf(tx: seq<Byte>, deadline: nat, submitter: Address, nonce: nat)
    | BurnOf(chain: nat, batch: nat, recipient: Address, amount: nat, path: seq<Byte>, asset: AssetRef)

  datatype AssetRef = Native | Asset(id: nat)

  datatype ObligationStatus = Pending | Honored | Slashed

  datatype Obligation = Obligation(deadline: nat, submitter: Address, nonce: nat, status: ObligationStatus)

  datatype AssetStatus = AssetActive | AssetPaused | AssetRemoved

  datatype Offense = EquivocationOffense | InvalidBatchOffense

  datatype Registries = Registries(
    authorities: Slots,
    validators: Slots,
    delegations: map<(nat, Address), nat>,
    vks: map<nat, nat>,
    batches: set<(nat, nat)>,
    nullifiers: set<Digest>,
    obligations: map<Digest, Obligation>,
    ejections: map<Digest, Address>,
    offenses: map<Digest, Offense>,
    assets: map<nat, AssetStatus>,
    lastMinted: nat,
    lastAuthorityRewards: nat,
    lastValidatorRewards: nat)

  const EMPTY := Registries(map[], map[], map[], map[], {}, {}, map[], map[], map[], map[], 0, 0, 0)

  function SlotsOf(r: Registries, ring: Ring): Slots
  {
    match ring case AuthorityRing => r.authorities case ValidatorRing => r.validators
  }

  /** The record of a slot, blank if there is none. */
  function Slot(r: Registries, ring: Ring, id: nat): SlotRecord
  {
    if id in SlotsOf(r, ring) then SlotsOf(r, ring)[id] else SlotRecord([], [], 0, 0, 0, Active)
  }

  function WithSlot(r: Registries, ring: Ring, id: nat, rec: SlotRecord): Registries
  {
    match ring
    case AuthorityRing => r.(authorities := r.authorities[id := rec])
    case ValidatorRing => r.(validators := r.validators[id := rec])
  }

  function LastRewards(r: Registries, ring: Ring): nat
  {
    match ring case AuthorityRing => r.lastAuthorityRewards case ValidatorRing => r.lastValidatorRewards
  }

  function WithLastRewards(r: Registries, ring: Ring, epoch: nat): Registries
  {
    match ring
    case AuthorityRing => r.(lastAuthorityRewards := epoch)
    case ValidatorRing => r.(lastValidatorRewards := epoch)
  }

  function Delegated(r: Registries, id: nat, who: Address): nat
  {
    if (id, who) in r.delegations then r.delegations[(id, who)] else 0
  }
}
