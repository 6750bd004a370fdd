/** Why the typed registries of the model stand for the stored bytes: every
    registry a run can reach survives being written and read back. */
module Persistence {
  import opened Balances
  import opened Registries
  import opened Intents
  import opened RegistryFrame
  import opened Lifecycle
  import opened RegistryCodec

  /** The widths the wire types impose: u32 slot ids, u64 stakes and heights. */
  ghost predicate Typed(op: Op)
  {
    match op
    case OpenBlock(h) => h <= U64_MAX
    case Attempt(i) => i.Admit? ==> i.id < U32_LIMIT && i.stake <= U64_MAX
  }

  ghost predicate Storable(s: State)
  {
    && s.height <= U64_MAX
    && AllEncodable(SlotsOf(s.reg, AuthorityRing)) && AllEncodable(SlotsOf(s.reg, ValidatorRing))
  }

  lemma SlotWrittenEncodable(s: State, i: Intent, ring: Ring, id: nat)
    requires Typed(Attempt(i)) && s.height <= U64_MAX && AllEncodable(SlotsOf(s.reg, ring)) && Gate(s, i) == []
    requires id in SlotsAfter(s.reg, ring, s.height, i)
    ensures Encodable(id, SlotsAfter(s.reg, ring, s.height, i)[id])
  {
  }

  lemma RingStaysEncodable(s: State, i: Intent, ring: Ring)
    requires Typed(Attempt(i)) && s.height <= U64_MAX && AllEncodable(SlotsOf(s.reg, ring))
    ensures AllEncodable(SlotsOf(Apply(s, i).state.reg, ring))
  {
    SlotsStep(s, i, ring);
    if Gate(s, i) == [] {
      forall id | id in SlotsAfter(s.reg, ring, s.height, i)
        ensures Encodable(id, SlotsAfter(s.reg, ring, s.height, i)[id])
      {
        SlotWrittenEncodable(s, i, ring, id);
      }
    }
  }

  lemma StepStorable(s: State, op: Op)
    requires Storable(s) && Typed(op)
    ensures Storable(Do(s, op))
  {
    if op.Attempt? {
      ApplyParts(s, op.intent);
      RingStaysEncodable(s, op.intent, AuthorityRing);
      RingStaysEncodable(s, op.intent, ValidatorRing);
    }
  }

  lemma {:induction false} RunStorable(s: State, ops: seq<Op>)
    requires Storable(s) && forall k | 0 <= k < |ops| :: Typed(ops[k])
    ensures Storable(Run(s, ops))
    decreases |ops|
  {
    if ops != [] {
      RunStorable(s, ops[..|ops| - 1]);
      StepStorable(Run(s, ops[..|ops| - 1]), ops[|ops| - 1]);
    }
  }

  /** Every reachable registry with fewer than 2^32 slots reads back as itself, so
      no arm ever meets a corrupt record of its own making. */
  lemma ReachableRegistryDecodes(b: Ledger, ops: seq<Op>)
    requires forall k | 0 <= k < |ops| :: Typed(ops[k])
    ensures var r := Run(State(b, EMPTY, 0), ops).reg;
            && (|r.authorities| < U32_LIMIT ==> Decoding(Encoding(V3, r.authorities)) == Good(r.authorities))
            && (|r.validators| < U32_LIMIT ==> Decoding(Encoding(V3, r.validators)) == Good(r.validators))
  {
    RunStorable(State(b, EMPTY, 0), ops);
    var r := Run(State(b, EMPTY, 0), ops).reg;
    if |r.authorities| < U32_LIMIT { RoundTrip(r.authorities); }
    if |r.validators| < U32_LIMIT { RoundTrip(r.validators); }
  }
}
