/** The life of an Authority or Validator slot, and why stake stays slashable
    during the exit cooldown. */
module Lifecycle {
  import opened Balances
  import opened Registries
  import opened Intents
  import opened RegistryFrame
  import opened Solvency
  import opened Effects

  function StatusRank(st: SlotStatus): nat
  {
    match st case Active => 0 case Exiting => 1 case Ejected => 2
  }

  /** A slot may only move forward, is never re-admitted (its keys and declared
      stake are fixed), and its exit stamp is set once, when it leaves Active. */
  ghost predicate Evolves(a: SlotRecord, b: SlotRecord)
  {
    && a.mldsaKey == b.mldsaKey && a.blsKey == b.blsKey && a.stake == b.stake
    && StatusRank(a.status) <= StatusRank(b.status)
    && (a.status != Active ==> b.exitHeight == a.exitHeight && b.deposited <= a.deposited)
  }

  /** An ejected slot holds nothing, and every deposit fits u64. */
  ghost predicate RecordConsistent(rec: SlotRecord)
  {
    rec.deposited <= U64_MAX && (rec.status == Ejected ==> rec.deposited == 0)
  }

  ghost predicate SlotsConsistent(slots: Slots)
  {
    forall id | id in slots :: RecordConsistent(slots[id])
  }

  ghost predicate Consistent(s: State)
  {
    SlotsConsistent(SlotsOf(s.reg, AuthorityRing)) && SlotsConsistent(SlotsOf(s.reg, ValidatorRing))
  }

  /** The intent is about this slot. */
  ghost predicate Names(i: Intent, ring: Ring, id: nat)
  {
    (i.Admit? || i.Exit? || i.Eject? || i.DepositStake? || i.WithdrawStake?) && i.ring == ring && i.id == id
  }

  /** A ring's slots are rewritten by an applied intent past its gates, or kept. */
  lemma SlotsStep(s: State, i: Intent, ring: Ring)
    ensures var after := SlotsOf(Apply(s, i).state.reg, ring);
            after == SlotsOf(s.reg, ring) || (Gate(s, i) == [] && after == SlotsAfter(s.reg, ring, s.height, i))
  {
    ApplyParts(s, i);
  }

  lemma SlotSkipped(r: Registries, height: nat, i: Intent, ring: Ring, id: nat)
    requires !Names(i, ring, id)
    ensures var before, after := SlotsOf(r, ring), SlotsAfter(r, ring, height, i);
            (id in before <==> id in after) && (id in before ==> after[id] == before[id])
  {
  }

  /** Intents about other slots, or about none, leave this slot as it is. */
  lemma SlotUntouched(s: State, i: Intent, ring: Ring, id: nat)
    requires !Names(i, ring, id)
    ensures var before, after := SlotsOf(s.reg, ring), SlotsOf(Apply(s, i).state.reg, ring);
            (id in before <==> id in after) && (id in before ==> after[id] == before[id])
  {
    SlotsStep(s, i, ring);
    SlotSkipped(s.reg, s.height, i, ring, id);
  }

  /** What the gates let one intent do to the slot it names. */
  lemma SlotRewritten(s: State, i: Intent, ring: Ring, id: nat)
    requires Names(i, ring, id) && Gate(s, i) == []
    ensures var before, after := SlotsOf(s.reg, ring), SlotsAfter(s.reg, ring, s.height, i);
            && (id in before ==> id in after && Evolves(before[id], after[id]))
            && (id !in before && id in after ==> after[id].status == Active && after[id].deposited == 0)
            && (id in before && RecordConsistent(before[id]) ==> RecordConsistent(after[id]))
  {
  }

  lemma SlotTouched(s: State, i: Intent, ring: Ring, id: nat)
    requires Names(i, ring, id)
    ensures var before, after := SlotsOf(s.reg, ring), SlotsOf(Apply(s, i).state.reg, ring);
            && (id in before ==> id in after && Evolves(before[id], after[id]))
            && (id !in before && id in after ==> after[id].status == Active && after[id].deposited == 0)
            && (id in before && RecordConsistent(before[id]) ==> RecordConsistent(after[id]))
  {
    SlotsStep(s, i, ring);
    if Gate(s, i) == [] {
      SlotRewritten(s, i, ring, id);
    }
  }

  lemma IntentKeepsSlotLife(s: State, i: Intent, ring: Ring, id: nat)
    ensures var before, after := SlotsOf(s.reg, ring), SlotsOf(Apply(s, i).state.reg, ring);
            && (id in before ==> id in after && Evolves(before[id], after[id]))
            && (id !in before && id in after ==> after[id].status == Active && after[id].deposited == 0)
  {
    if Names(i, ring, id) {
      SlotTouched(s, i, ring, id);
    } else {
      SlotUntouched(s, i, ring, id);
    }
  }

  lemma SlotStaysConsistent(s: State, i: Intent, ring: Ring, id: nat)
    requires SlotsConsistent(SlotsOf(s.reg, ring)) && id in SlotsOf(Apply(s, i).state.reg, ring)
    ensures RecordConsistent(SlotsOf(Apply(s, i).state.reg, ring)[id])
  {
    if Names(i, ring, id) {
      SlotTouched(s, i, ring, id);
    } else {
      SlotUntouched(s, i, ring, id);
    }
  }

  lemma RingStaysConsistent(s: State, i: Intent, ring: Ring)
    requires SlotsConsistent(SlotsOf(s.reg, ring))
    ensures SlotsConsistent(SlotsOf(Apply(s, i).state.reg, ring))
  {
    forall id | id in SlotsOf(Apply(s, i).state.reg, ring)
      ensures RecordConsistent(SlotsOf(Apply(s, i).state.reg, ring)[id])
    {
      SlotStaysConsistent(s, i, ring, id);
    }
  }

  lemma IntentKeepsConsistent(s: State, i: Intent)
    requires Consistent(s)
    ensures Consistent(Apply(s, i).state)
  {
    RingStaysConsistent(s, i, AuthorityRing);
    RingStaysConsistent(s, i, ValidatorRing);
  }

  lemma EvolvesTransitive(a: SlotRecord, b: SlotRecord, c: SlotRecord)
    requires Evolves(a, b) && Evolves(b, c)
    ensures Evolves(a, c)
  {
  }

  /** Over any run: no slot disappears, each only moves forward, ejected slots
      stay empty. */
  lemma {:induction false} RunKeepsSlotLife(s: State, ops: seq<Op>, ring: Ring, id: nat)
    requires id in SlotsOf(s.reg, ring)
    ensures id in SlotsOf(Run(s, ops).reg, ring)
    ensures Evolves(SlotsOf(s.reg, ring)[id], SlotsOf(Run(s, ops).reg, ring)[id])
    decreases |ops|
  {
    if ops != [] {
      var init, op := ops[..|ops| - 1], ops[|ops| - 1];
      RunKeepsSlotLife(s, init, ring, id);
      if op.Attempt? {
        IntentKeepsSlotLife(Run(s, init), op.intent, ring, id);
        EvolvesTransitive(SlotsOf(s.reg, ring)[id], SlotsOf(Run(s, init).reg, ring)[id],
                          SlotsOf(Run(s, ops).reg, ring)[id]);
      }
    }
  }

  lemma {:induction false} RunKeepsConsistent(s: State, ops: seq<Op>)
    requires Consistent(s)
    ensures Consistent(Run(s, ops))
    decreases |ops|
  {
    if ops != [] {
      RunKeepsConsistent(s, ops[..|ops| - 1]);
      if ops[|ops| - 1].Attempt? {
        IntentKeepsConsistent(Run(s, ops[..|ops| - 1]), ops[|ops| - 1].intent);
      }
    }
  }

  // ----- The account of one slot -----

  /** What one operation adds to a slot's deposit, pays out of it, and takes away. */
  ghost function PaidIn(s: State, op: Op, ring: Ring, id: nat): nat
  {
    if op.Attempt? && op.intent.DepositStake? && Names(op.intent, ring, id) && Apply(s, op.intent).outcome.Ok?
    then op.intent.amount else 0
  }

  ghost function PaidOut(s: State, op: Op, ring: Ring, id: nat): nat
  {
    if op.Attempt? && op.intent.WithdrawStake? && Names(op.intent, ring, id) && Apply(s, op.intent).outcome.Ok?
    then op.intent.amount else 0
  }

  ghost function Forfeited(s: State, op: Op, ring: Ring, id: nat): nat
  {
    if op.Attempt? && op.intent.Eject? && Names(op.intent, ring, id) && Apply(s, op.intent).outcome.Ok?
    then Slot(s.reg, ring, id).deposited else 0
  }

  ghost predicate Booked(s: State, op: Op, ring: Ring, id: nat)
  {
    Slot(Do(s, op).reg, ring, id).deposited + PaidOut(s, op, ring, id) + Forfeited(s, op, ring, id)
    == Slot(s.reg, ring, id).deposited + PaidIn(s, op, ring, id)
  }

  lemma SlotBooked(s: State, op: Op, ring: Ring, id: nat)
    ensures Booked(s, op, ring, id)
  {
    if op.Attempt? {
      if Names(op.intent, ring, id) {
        NamedSlotBooked(s, op.intent, ring, id);
      } else {
        SlotUntouched(s, op.intent, ring, id);
      }
    }
  }

  lemma NamedSlotBooked(s: State, i: Intent, ring: Ring, id: nat)
    requires Names(i, ring, id)
    ensures Booked(s, Attempt(i), ring, id)
  {
    match i
    case Admit(_, _, stake, mldsa, bls) => AdmitEffect(s, ring, id, stake, mldsa, bls);
    case Exit(_, _) => ExitEffect(s, ring, id);
    case Eject(_, _) => EjectEffect(s, ring, id);
    case DepositStake(_, from, _, x) => DepositEffect(s, ring, from, id, x);
    case WithdrawStake(_, to, _, x) => WithdrawEffect(s, ring, to, id, x);
  }

  ghost function AllPaidIn(s: State, ops: seq<Op>, ring: Ring, id: nat): nat
    decreases |ops|
  {
    if ops == [] then 0
    else AllPaidIn(s, ops[..|ops| - 1], ring, id) + PaidIn(Run(s, ops[..|ops| - 1]), ops[|ops| - 1], ring, id)
  }

  ghost function AllPaidOut(s: State, ops: seq<Op>, ring: Ring, id: nat): nat
    decreases |ops|
  {
    if ops == [] then 0
    else AllPaidOut(s, ops[..|ops| - 1], ring, id) + PaidOut(Run(s, ops[..|ops| - 1]), ops[|ops| - 1], ring, id)
  }

  ghost function AllForfeited(s: State, ops: seq<Op>, ring: Ring, id: nat): nat
    decreases |ops|
  {
    if ops == [] then 0
    else AllForfeited(s, ops[..|ops| - 1], ring, id) + Forfeited(Run(s, ops[..|ops| - 1]), ops[|ops| - 1], ring, id)
  }

  /** Over every run a slot holds what was paid in, less what was withdrawn and what
      its ejections took. */
  lemma {:induction false} SlotAccount(s: State, ops: seq<Op>, ring: Ring, id: nat)
    ensures Slot(Run(s, ops).reg, ring, id).deposited + AllPaidOut(s, ops, ring, id) + AllForfeited(s, ops, ring, id)
         == Slot(s.reg, ring, id).deposited + AllPaidIn(s, ops, ring, id)
    decreases |ops|
  {
    if ops != [] {
      SlotAccount(s, ops[..|ops| - 1], ring, id);
      SlotBooked(Run(s, ops[..|ops| - 1]), ops[|ops| - 1], ring, id);
    }
  }

  /** The status of a slot changes exactly by an applied admission, exit or ejection
      of it. */
  lemma StatusExactly(s: State, i: Intent, ring: Ring, id: nat)
    requires id in SlotsOf(s.reg, ring)
    ensures var t, was := Apply(s, i), SlotsOf(s.reg, ring)[id].status;
            && id in SlotsOf(t.state.reg, ring)
            && SlotsOf(t.state.reg, ring)[id].status
            == (if i == Eject(ring, id) && t.outcome.Ok? then Ejected
                else if i == Exit(ring, id) && was == Active then Exiting
                else was)
  {
    if Names(i, ring, id) {
      NamedStatus(s, i, ring, id);
    } else {
      SlotUntouched(s, i, ring, id);
    }
  }

  lemma NamedStatus(s: State, i: Intent, ring: Ring, id: nat)
    requires id in SlotsOf(s.reg, ring) && Names(i, ring, id)
    ensures var t, was := Apply(s, i), SlotsOf(s.reg, ring)[id].status;
            && id in SlotsOf(t.state.reg, ring)
            && SlotsOf(t.state.reg, ring)[id].status
            == (if i == Eject(ring, id) && t.outcome.Ok? then Ejected
                else if i == Exit(ring, id) && was == Active then Exiting
                else was)
  {
    match i
    case Admit(_, _, stake, mldsa, bls) => AdmitEffect(s, ring, id, stake, mldsa, bls);
    case Exit(_, _) => ExitEffect(s, ring, id);
    case Eject(_, _) => EjectEffect(s, ring, id);
    case DepositStake(_, from, _, x) => DepositEffect(s, ring, from, id, x);
    case WithdrawStake(_, to, _, x) => WithdrawEffect(s, ring, to, id, x);
  }

  // ----- Delegations -----

  ghost function DelegatedBy(s: State, op: Op, id: nat, who: Address): nat
  {
    if op.Attempt? && op.intent.Delegate? && op.intent.validator == id && op.intent.from == who
       && Apply(s, op.intent).outcome.Ok?
    then op.intent.amount else 0
  }

  ghost function AllDelegated(s: State, ops: seq<Op>, id: nat, who: Address): nat
    decreases |ops|
  {
    if ops == [] then 0
    else AllDelegated(s, ops[..|ops| - 1], id, who) + DelegatedBy(Run(s, ops[..|ops| - 1]), ops[|ops| - 1], id, who)
  }

  /** Over every run the entry of a delegator at a validator is exactly what that
      delegator has delegated there. */
  lemma {:induction false} DelegationAccount(s: State, ops: seq<Op>, id: nat, who: Address)
    ensures Delegated(Run(s, ops).reg, id, who) == Delegated(s.reg, id, who) + AllDelegated(s, ops, id, who)
    decreases |ops|
  {
    if ops != [] {
      var mid, op := Run(s, ops[..|ops| - 1]), ops[|ops| - 1];
      DelegationAccount(s, ops[..|ops| - 1], id, who);
      if op.Attempt? {
        if op.intent.Delegate? {
          DelegateEffect(mid, op.intent.from, op.intent.validator, op.intent.amount);
        } else {
          RegistriesKept(mid, op.intent);
        }
      }
    }
  }

  // ----- Cooldown -----

  /** Every block of the run opens below `limit`. */
  ghost predicate BlocksBelow(ops: seq<Op>, limit: nat)
  {
    forall k | 0 <= k < |ops| && ops[k].OpenBlock? :: ops[k].height < limit
  }

  lemma {:induction false} HeightBelow(s: State, ops: seq<Op>, limit: nat)
    requires s.height < limit && BlocksBelow(ops, limit)
    ensures Run(s, ops).height < limit
    decreases |ops|
  {
    if ops != [] {
      var init := ops[..|ops| - 1];
      assert forall k | 0 <= k < |init| :: init[k] == ops[k];
      HeightBelow(s, init, limit);
      if ops[|ops| - 1].Attempt? {
        ApplyParts(Run(s, init), ops[|ops| - 1].intent);
      }
    }
  }

  /** Before the release height one step either leaves an exiting slot exactly as
      it is or ejects it. */
  lemma CoolingStep(s: State, i: Intent, ring: Ring, id: nat)
    requires id in SlotsOf(s.reg, ring) && SlotsOf(s.reg, ring)[id].status == Exiting
    requires s.height < ReleaseHeight(SlotsOf(s.reg, ring)[id])
    ensures var rec, after := SlotsOf(s.reg, ring)[id], SlotsOf(Apply(s, i).state.reg, ring);
            id in after && (after[id] == rec || (i == Eject(ring, id) && after[id].status == Ejected))
  {
    SlotsStep(s, i, ring);
    if Names(i, ring, id) && Gate(s, i) == [] {
      CoolingSlot(s, i, ring, id);
    }
  }

  lemma CoolingSlot(s: State, i: Intent, ring: Ring, id: nat)
    requires id in SlotsOf(s.reg, ring) && SlotsOf(s.reg, ring)[id].status == Exiting
    requires s.height < ReleaseHeight(SlotsOf(s.reg, ring)[id])
    requires Names(i, ring, id) && Gate(s, i) == []
    ensures var after := SlotsAfter(s.reg, ring, s.height, i);
            && id in after
            && (after[id] == SlotsOf(s.reg, ring)[id] || (i == Eject(ring, id) && after[id].status == Ejected))
  {
  }

  /** While every height stays below the release height, an exiting slot keeps its
      whole deposit and its exit stamp; the only way out is ejection. */
  lemma {:induction false} CooldownKeepsStake(s: State, ops: seq<Op>, ring: Ring, id: nat)
    requires id in SlotsOf(s.reg, ring) && SlotsOf(s.reg, ring)[id].status == Exiting
    requires s.height < ReleaseHeight(SlotsOf(s.reg, ring)[id])
    requires BlocksBelow(ops, ReleaseHeight(SlotsOf(s.reg, ring)[id]))
    ensures id in SlotsOf(Run(s, ops).reg, ring)
    ensures SlotsOf(Run(s, ops).reg, ring)[id].status != Ejected ==>
              SlotsOf(Run(s, ops).reg, ring)[id] == SlotsOf(s.reg, ring)[id]
    decreases |ops|
  {
    if ops != [] {
      var rec := SlotsOf(s.reg, ring)[id];
      var init, op := ops[..|ops| - 1], ops[|ops| - 1];
      assert forall k | 0 <= k < |init| :: init[k] == ops[k];
      CooldownKeepsStake(s, init, ring, id);
      HeightBelow(s, init, ReleaseHeight(rec));
      var mid := Run(s, init);
      if op.Attempt? {
        if SlotsOf(mid.reg, ring)[id].status == Ejected {
          IntentKeepsSlotLife(mid, op.intent, ring, id);
        } else {
          CoolingStep(mid, op.intent, ring, id);
        }
      }
    }
  }

  /** So throughout the cooldown a slot that has not been ejected can be ejected
      for exactly the stake it entered with, split 70 to 30. */
  lemma CooldownStakeIsSlashable(s: State, ops: seq<Op>, ring: Ring, id: nat)
    requires Solvent(s) && SafeLocks(s, ops) && Consistent(s)
    requires id in SlotsOf(s.reg, ring) && SlotsOf(s.reg, ring)[id].status == Exiting
    requires s.height < ReleaseHeight(SlotsOf(s.reg, ring)[id])
    requires BlocksBelow(ops, ReleaseHeight(SlotsOf(s.reg, ring)[id]))
    ensures var stake, late := SlotsOf(s.reg, ring)[id].deposited, Run(s, ops);
            var t := Apply(late, Eject(ring, id));
            && id in SlotsOf(late.reg, ring)
            && (SlotsOf(late.reg, ring)[id].status != Ejected && t.outcome.Ok? ==>
                  && Drained(late.balances, t.state.balances, StakePool(ring), stake)
                  && InsuranceShare(stake) == stake * 70 / 100)
            && (Supply(late.balances) <= U128_MAX ==> t.outcome.Ok?)
  {
    CooldownKeepsStake(s, ops, ring, id);
    RunKeepsSolvency(s, ops);
    EjectTakesWholeDeposit(Run(s, ops), ring, id);
    assert RecordConsistent(SlotsOf(s.reg, ring)[id]);
  }

  lemma ReleaseMeans(rec: SlotRecord)
    ensures ReleaseHeight(rec) == CooldownEnd(rec.exitHeight)
  {
  }

  /** No withdrawal succeeds within 2,419,200 blocks of the exit, whatever happens in
      between. */
  lemma NoEarlyWithdrawal(s: State, ops: seq<Op>, ring: Ring, id: nat, to: Address, x: nat)
    requires Apply(s, Exit(ring, id)).outcome.Ok? && x > 0
    requires s.height < CooldownEnd(s.height) && BlocksBelow(ops, CooldownEnd(s.height))
    ensures Apply(Run(Apply(s, Exit(ring, id)).state, ops), WithdrawStake(ring, to, id, x)).outcome.Err?
  {
    var t := Apply(s, Exit(ring, id)).state;
    ExitEffect(s, ring, id);
    ReleaseMeans(SlotsOf(t.reg, ring)[id]);
    CooldownKeepsStake(t, ops, ring, id);
    HeightBelow(t, ops, CooldownEnd(s.height));
    WithdrawEffect(Run(t, ops), ring, to, id, x);
  }
}
