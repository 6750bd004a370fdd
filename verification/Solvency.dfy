/** Stake-pool solvency: on every run the pools cover what the registries say
    they hold, so the defensive clamp of an ejection never bites and a gated
    withdrawal never fails for lack of pool funds. */
module Solvency {
  import opened Balances
  import opened Registries
  import opened Intents
  import opened Moves
  import opened RegistryFrame
  import opened Frame

  ghost function Deposits(slots: Slots): map<nat, nat>
  {
    map id | id in slots :: slots[id].deposited
  }

  ghost function DelegatedTo(r: Registries, ring: Ring): nat
  {
    if ring == ValidatorRing then Sum(r.delegations) else 0
  }

  /** What a ring's pool owes: all deposits, and for validators all delegations. */
  ghost function Owed(r: Registries, ring: Ring): nat
  {
    Sum(Deposits(SlotsOf(r, ring))) + DelegatedTo(r, ring)
  }

  ghost predicate SolventFor(s: State, ring: Ring)
  {
    Owed(s.reg, ring) <= Bal(s.balances, StakePool(ring))
  }

  ghost predicate Solvent(s: State)
  {
    SolventFor(s, AuthorityRing) && SolventFor(s, ValidatorRing)
  }

  /** How an applied intent changes a ring's debt. */
  ghost function DebtChange(r: Registries, ring: Ring, i: Intent): int
  {
    match i
    case Delegate(_, _, x) => if ring == ValidatorRing then x else 0
    case Admit(g, id, _, _, _) => if g == ring then 0 - Slot(r, ring, id).deposited else 0
    case Eject(g, id) => if g == ring then 0 - Slot(r, ring, id).deposited else 0
    case DepositStake(g, _, _, x) => if g == ring then x else 0
    case WithdrawStake(g, _, id, x) => if g == ring && x <= Slot(r, ring, id).deposited then 0 - x else 0
    case _ => 0
  }

  /** Rewriting one slot changes the deposits by the change of its own. */
  lemma DepositsUpdate(r: Registries, ring: Ring, id: nat, rec: SlotRecord)
    ensures Sum(Deposits(SlotsOf(r, ring)[id := rec]))
         == Sum(Deposits(SlotsOf(r, ring))) - Slot(r, ring, id).deposited + rec.deposited
  {
    var slots := SlotsOf(r, ring);
    assert Deposits(slots[id := rec]) == Deposits(slots)[id := rec.deposited];
    SumUpdate(Deposits(slots), id, rec.deposited);
  }

  lemma SlotsDebt(r: Registries, ring: Ring, height: nat, i: Intent)
    ensures Sum(Deposits(SlotsAfter(r, ring, height, i)))
         == Sum(Deposits(SlotsOf(r, ring))) + if i.Delegate? then 0 else DebtChange(r, ring, i)
  {
    if WritesSlot(r, ring, i) {
      DepositsUpdate(r, ring, i.id, SlotAfter(Slot(r, ring, i.id), height, i));
    }
  }

  lemma DelegationsDebt(r: Registries, i: Intent)
    ensures Sum(DelegationsAfter(r, i)) == Sum(r.delegations) + if i.Delegate? then i.amount else 0
  {
    if i.Delegate? {
      SumUpdate(r.delegations, (i.validator, i.from), Delegated(r, i.validator, i.from) + i.amount);
    }
  }

  lemma DebtStep(r: Registries, height: nat, i: Intent, ok: bool, ring: Ring)
    ensures Owed(Written(r, height, i, ok), ring) == Owed(r, ring) + if ok then DebtChange(r, ring, i) else 0
  {
    SlotsDebt(r, ring, height, i);
    DelegationsDebt(r, i);
  }

  lemma OwedCoversSlot(r: Registries, ring: Ring, id: nat)
    ensures Slot(r, ring, id).deposited <= Owed(r, ring)
  {
    if id in SlotsOf(r, ring) {
      SumBoundsEach(Deposits(SlotsOf(r, ring)), id);
    }
  }

  /** What genesis pays into a pool without any debt to show for it. */
  ghost function Gift(ring: Ring, i: Intent): nat
  {
    if i.GenesisAllocation? then SumTo(i.allocations, StakePool(ring)) else 0
  }

  /** The pool gains exactly what its ring's debt grows by, and what genesis gives it. */
  ghost predicate PoolKeepsUp(s: State, i: Intent, ring: Ring)
  {
    var m := MoveOf(s.balances, s.reg, i);
    var gained := Bal(m.balances, StakePool(ring)) - Bal(s.balances, StakePool(ring));
    gained == if m.outcome.Ok? then DebtChange(s.reg, ring, i) + Gift(ring, i) else 0
  }

  lemma EjectPool(s: State, i: Intent, ring: Ring)
    requires i.Eject? && SolventFor(s, i.ring)
    ensures PoolKeepsUp(s, i, ring)
  {
    var dep := Slot(s.reg, i.ring, i.id).deposited;
    OwedCoversSlot(s.reg, i.ring, i.id);
    ShareFits(dep);
    WaterfallTotals(dep);
    DrainPays(s.balances, StakePool(i.ring), Waterfall(dep));
  }

  /** A user who pays into or is paid from `pool` leaves the other pools alone. */
  lemma PoolTransfer(b: Ledger, pool: Address, user: Address, x: nat, other: Address)
    requires pool.Reserved? && other.Reserved? && (x == 0 || user.User?)
    ensures var m := TransferInternal(b, user, pool, x);
            Bal(m.balances, other) == Bal(b, other) + if m.outcome.Ok? && other == pool then x else 0
    ensures var m := TransferInternal(b, pool, user, x);
            Bal(m.balances, other) == Bal(b, other) - if m.outcome.Ok? && other == pool then x else 0
  {
    TransferInternalPays(b, user, pool, x);
    TransferInternalPays(b, pool, user, x);
  }

  lemma StakePoolMoves(s: State, i: Intent, ring: Ring)
    requires (i.DepositStake? || i.WithdrawStake? || i.Delegate?) && Gate(s, i) == []
    ensures PoolKeepsUp(s, i, ring)
  {
    match i
    case Delegate(from, _, x) => PoolTransfer(s.balances, StakePool(ValidatorRing), from, x, StakePool(ring));
    case DepositStake(g, from, _, x) => PoolTransfer(s.balances, StakePool(g), from, x, StakePool(ring));
    case WithdrawStake(g, to, _, x) => PoolTransfer(s.balances, StakePool(g), to, x, StakePool(ring));
  }

  lemma OtherPoolMoves(s: State, i: Intent, ring: Ring)
    requires !i.DepositStake? && !i.WithdrawStake? && !i.Delegate? && !i.Eject?
    requires !LockTakes(s, i, StakePool(ring)) && Gate(s, i) == []
    ensures PoolKeepsUp(s, i, ring)
  {
    if i.GenesisAllocation? {
      CreditManyPays(s.balances, i.allocations);
    } else {
      MoveSpares(s, i, StakePool(ring));
    }
  }

  lemma PoolMoves(s: State, i: Intent, ring: Ring)
    requires Solvent(s) && !LockTakes(s, i, StakePool(ring)) && Gate(s, i) == []
    ensures PoolKeepsUp(s, i, ring)
  {
    if i.Eject? {
      EjectPool(s, i, ring);
    } else if i.DepositStake? || i.WithdrawStake? || i.Delegate? {
      StakePoolMoves(s, i, ring);
    } else {
      OtherPoolMoves(s, i, ring);
    }
  }

  /** The intent is a lock that takes a pool below its debt. */
  ghost predicate LockDrains(s: State, i: Intent, ring: Ring)
  {
    LockTakes(s, i, StakePool(ring)) && Bal(s.balances, StakePool(ring)) - i.amount < Owed(s.reg, ring)
  }

  lemma RingKeptIff(s: State, i: Intent, ring: Ring)
    requires Solvent(s)
    ensures SolventFor(Apply(s, i).state, ring) <==> !LockDrains(s, i, ring)
  {
    ApplyParts(s, i);
    if LockTakes(s, i, StakePool(ring)) {
      LockedRing(s, i, ring);
    } else if Gate(s, i) == [] {
      SparedRing(s, i, ring);
    }
  }

  lemma LockedRing(s: State, i: Intent, ring: Ring)
    requires LockTakes(s, i, StakePool(ring))
    ensures Bal(Apply(s, i).state.balances, StakePool(ring)) == Bal(s.balances, StakePool(ring)) - i.amount
    ensures Owed(Apply(s, i).state.reg, ring) == Owed(s.reg, ring)
  {
    ApplyParts(s, i);
    LockTakesAmount(s, i, StakePool(ring));
    DebtStep(s.reg, s.height, i, MoveOf(s.balances, s.reg, i).outcome.Ok?, ring);
  }

  lemma SparedRing(s: State, i: Intent, ring: Ring)
    requires Solvent(s) && Gate(s, i) == [] && !LockTakes(s, i, StakePool(ring))
    ensures SolventFor(Apply(s, i).state, ring)
  {
    ApplyParts(s, i);
    PoolMoves(s, i, ring);
    DebtStep(s.reg, s.height, i, MoveOf(s.balances, s.reg, i).outcome.Ok?, ring);
  }

  /** An intent, applied or failing, keeps both pools solvent exactly when it is not
      a lock that takes one of them below its debt. */
  lemma SolvencyKeptIff(s: State, i: Intent)
    requires Solvent(s)
    ensures Solvent(Apply(s, i).state) <==> !LockDrains(s, i, AuthorityRing) && !LockDrains(s, i, ValidatorRing)
  {
    RingKeptIff(s, i, AuthorityRing);
    RingKeptIff(s, i, ValidatorRing);
  }

  /** What a pool holds beyond its debt. */
  ghost function Excess(s: State, ring: Ring): int
  {
    Bal(s.balances, StakePool(ring)) - Owed(s.reg, ring)
  }

  ghost function GivenBy(s: State, op: Op, ring: Ring): nat
  {
    if op.Attempt? && Apply(s, op.intent).outcome.Ok? then Gift(ring, op.intent) else 0
  }

  ghost function LockedOut(s: State, op: Op, ring: Ring): nat
  {
    if op.Attempt? && LockTakes(s, op.intent, StakePool(ring)) then op.intent.amount else 0
  }

  /** One operation leaves the excess as it is, but for gifts and locks. */
  lemma ExcessStep(s: State, op: Op, ring: Ring)
    requires Solvent(s)
    ensures Excess(Do(s, op), ring) == Excess(s, ring) + GivenBy(s, op, ring) - LockedOut(s, op, ring)
  {
    if op.Attempt? {
      var i := op.intent;
      ApplyParts(s, i);
      if LockTakes(s, i, StakePool(ring)) {
        LockedRing(s, i, ring);
      } else if Gate(s, i) == [] {
        PoolMoves(s, i, ring);
        DebtStep(s.reg, s.height, i, MoveOf(s.balances, s.reg, i).outcome.Ok?, ring);
      }
    }
  }

  /** No operation of the run is such a lock in the state it meets. */
  ghost predicate SafeLocks(s: State, ops: seq<Op>)
    decreases |ops|
  {
    ops == [] ||
    var init, op := ops[..|ops| - 1], ops[|ops| - 1];
    SafeLocks(s, init) && (op.Attempt? ==> forall ring: Ring :: !LockDrains(Run(s, init), op.intent, ring))
  }

  /** Every state of the run is solvent. */
  ghost predicate AlwaysSolvent(s: State, ops: seq<Op>)
    decreases |ops|
  {
    Solvent(Run(s, ops)) && (ops != [] ==> AlwaysSolvent(s, ops[..|ops| - 1]))
  }

  /** A run from a solvent state is solvent throughout exactly when it makes no
      draining lock. */
  lemma {:induction false} RunSolventIff(s: State, ops: seq<Op>)
    requires Solvent(s)
    ensures AlwaysSolvent(s, ops) <==> SafeLocks(s, ops)
    decreases |ops|
  {
    if ops != [] {
      var init, op := ops[..|ops| - 1], ops[|ops| - 1];
      RunSolventIff(s, init);
      if op.Attempt? && AlwaysSolvent(s, init) {
        StillSolvent(s, init);
        SolvencyKeptIff(Run(s, init), op.intent);
        RingsCovered(Run(s, init), op.intent);
      }
    }
  }

  lemma StillSolvent(s: State, ops: seq<Op>)
    requires AlwaysSolvent(s, ops)
    ensures Solvent(Run(s, ops))
  {
  }

  lemma RingsCovered(s: State, i: Intent)
    ensures !LockDrains(s, i, AuthorityRing) && !LockDrains(s, i, ValidatorRing)
       <==> forall ring: Ring :: !LockDrains(s, i, ring)
  {
    forall ring: Ring | !LockDrains(s, i, AuthorityRing) && !LockDrains(s, i, ValidatorRing)
      ensures !LockDrains(s, i, ring)
    {
      assert ring == AuthorityRing || ring == ValidatorRing;
    }
  }

  /** Locks that name user accounts are safe. */
  lemma {:induction false} UserLocksAreSafe(s: State, ops: seq<Op>)
    requires forall k | 0 <= k < |ops| && ops[k].Attempt? :: UserLock(ops[k].intent)
    ensures SafeLocks(s, ops)
    decreases |ops|
  {
    if ops != [] {
      assert forall k | 0 <= k < |ops| - 1 :: ops[..|ops| - 1][k] == ops[k];
      UserLocksAreSafe(s, ops[..|ops| - 1]);
    }
  }

  lemma RunKeepsSolvency(s: State, ops: seq<Op>)
    requires Solvent(s) && SafeLocks(s, ops)
    ensures Solvent(Run(s, ops))
  {
    RunSolventIff(s, ops);
  }

  ghost function AllGiven(s: State, ops: seq<Op>, ring: Ring): nat
    decreases |ops|
  {
    if ops == [] then 0
    else AllGiven(s, ops[..|ops| - 1], ring) + GivenBy(Run(s, ops[..|ops| - 1]), ops[|ops| - 1], ring)
  }

  ghost function AllLockedOut(s: State, ops: seq<Op>, ring: Ring): nat
    decreases |ops|
  {
    if ops == [] then 0
    else AllLockedOut(s, ops[..|ops| - 1], ring) + LockedOut(Run(s, ops[..|ops| - 1]), ops[|ops| - 1], ring)
  }

  /** The exact account of a pool: every deposit, delegation, withdrawal and ejection
      moves it by as much as its debt, so only genesis gifts and locks change what it
      holds beyond. */
  lemma {:induction false} PoolAccount(s: State, ops: seq<Op>, ring: Ring)
    requires Solvent(s) && SafeLocks(s, ops)
    ensures Excess(Run(s, ops), ring) == Excess(s, ring) + AllGiven(s, ops, ring) - AllLockedOut(s, ops, ring)
    decreases |ops|
  {
    if ops != [] {
      PoolAccount(s, ops[..|ops| - 1], ring);
      RunKeepsSolvency(s, ops[..|ops| - 1]);
      ExcessStep(Run(s, ops[..|ops| - 1]), ops[|ops| - 1], ring);
    }
  }

  /** Any run from empty registries, whatever the balances. */
  lemma PoolsAlwaysSolvent(b: Ledger, h: nat, ops: seq<Op>)
    ensures AlwaysSolvent(State(b, EMPTY, h), ops) <==> SafeLocks(State(b, EMPTY, h), ops)
  {
    assert Deposits(map[]) == map[];
    RunSolventIff(State(b, EMPTY, h), ops);
  }

  /** The pool, the insurance fund and the treasury after `dep` left the pool
      through the waterfall. */
  ghost predicate Drained(b: Ledger, c: Ledger, pool: Address, dep: nat)
  {
    && InsuranceShare(dep) <= dep
    && Bal(c, pool) == Bal(b, pool) - dep
    && Bal(c, INSURANCE) == Bal(b, INSURANCE) + InsuranceShare(dep)
    && Bal(c, TREASURY) == Bal(b, TREASURY) + dep - InsuranceShare(dep)
  }

  lemma EjectMoveIsFull(s: State, ring: Ring, id: nat)
    requires SolventFor(s, ring)
    ensures var dep := Slot(s.reg, ring, id).deposited;
            var m := EjectMove(s.balances, StakePool(ring), dep);
            && (m.outcome.Ok? ==> Drained(s.balances, m.balances, StakePool(ring), dep))
            && (Supply(s.balances) <= U128_MAX ==> m.outcome.Ok?)
  {
    var dep := Slot(s.reg, ring, id).deposited;
    OwedCoversSlot(s.reg, ring, id);
    ShareFits(dep);
    WaterfallTotals(dep);
    DrainPays(s.balances, StakePool(ring), Waterfall(dep));
    if Supply(s.balances) <= U128_MAX {
      DrainFits(s.balances, StakePool(ring), Waterfall(dep));
    }
  }

  /** The clamp never bites: an ejection drains the slot's whole deposit through
      the waterfall, empties its record, and only fails if a credit would leave
      u128. */
  lemma EjectTakesWholeDeposit(s: State, ring: Ring, id: nat)
    requires SolventFor(s, ring) && id in SlotsOf(s.reg, ring)
    ensures var rec := SlotsOf(s.reg, ring)[id];
            var t := Apply(s, Eject(ring, id));
            && (Supply(s.balances) <= U128_MAX ==> t.outcome.Ok?)
            && (t.outcome.Ok? ==>
                  && Drained(s.balances, t.state.balances, StakePool(ring), rec.deposited)
                  && SlotsOf(t.state.reg, ring) == SlotsOf(s.reg, ring)[id := rec.(deposited := 0, status := Ejected)])
  {
    EjectMoveIsFull(s, ring, id);
    ApplyParts(s, Eject(ring, id));
  }

  /** A withdrawal that passes its gates is never refused for lack of pool funds. */
  lemma WithdrawalIsFunded(s: State, ring: Ring, to: Address, id: nat, x: nat)
    requires SolventFor(s, ring)
    ensures var t := Apply(s, WithdrawStake(ring, to, id, x));
            !(t.outcome.Err? && t.outcome.error.InsufficientBalance?)
  {
    OwedCoversSlot(s.reg, ring, id);
  }

  // ----- A run that ends insolvent -----

  const STAKER := User(1)

  /** The staker holds `free`, the pool holds `staked`, the slot's record says so
      too, and no pool is short. */
  ghost predicate Stage(s: State, slot: bool, free: nat, staked: nat)
  {
    && s.height == 0 && Solvent(s)
    && Bal(s.balances, STAKER) == free && Bal(s.balances, StakePool(AuthorityRing)) == staked
    && (if slot then 0 in s.reg.authorities && s.reg.authorities[0].status == Active
                     && s.reg.authorities[0].deposited == staked
        else s.reg.authorities == map[])
  }

  lemma EmptyStage(s: State)
    requires s.balances == map[] && s.reg == EMPTY && s.height == 0
    ensures Stage(s, false, 0, 0) && forall a :: Bal(s.balances, a) == 0
  {
    assert Deposits(map[]) == map[];
  }

  lemma GenesisStage(s: State)
    requires Stage(s, false, 0, 0) && forall a :: Bal(s.balances, a) == 0
    ensures Stage(Apply(s, GenesisAllocation([(STAKER, 5)])).state, false, 5, 0)
  {
    var i := GenesisAllocation([(STAKER, 5)]);
    GenesisPays(s.balances);
    ApplyParts(s, i);
    RegistriesKept(s, i);
    SolvencyKeptIff(s, i);
  }

  lemma GenesisPays(b: Ledger)
    requires Bal(b, STAKER) == 0 && forall a :: Bal(b, a) <= U128_MAX - 5
    ensures var m := CreditManyAtomic(b, [(STAKER, 5)]);
            && Bal(m.balances, STAKER) == 5
            && Bal(m.balances, StakePool(AuthorityRing)) == Bal(b, StakePool(AuthorityRing))
  {
    var cs := [(STAKER, 5)];
    forall a ensures SumTo(cs, a) == if a == STAKER then 5 else 0 { SingleCredit(cs[0], a); }
    CreditManyPays(b, cs);
  }

  lemma AdmitStage(s: State)
    requires Stage(s, false, 5, 0)
    ensures Stage(Apply(s, Admit(AuthorityRing, 0, 0, [], [])).state, true, 5, 0)
  {
    var i := Admit(AuthorityRing, 0, 0, [], []);
    ApplyParts(s, i);
    SolvencyKeptIff(s, i);
  }

  lemma StakeStage(s: State)
    requires Stage(s, true, 5, 0)
    ensures Stage(Apply(s, DepositStake(AuthorityRing, STAKER, 0, 5)).state, true, 0, 5)
  {
    var i := DepositStake(AuthorityRing, STAKER, 0, 5);
    TransferInternalPays(s.balances, STAKER, StakePool(AuthorityRing), 5);
    ApplyParts(s, i);
    SolvencyKeptIff(s, i);
  }

  lemma LockStage(s: State)
    requires Stage(s, true, 0, 5)
    ensures !Solvent(Apply(s, L1Lock(StakePool(AuthorityRing), 5, Native)).state)
  {
    var i := L1Lock(StakePool(AuthorityRing), 5, Native);
    OwedCoversSlot(s.reg, AuthorityRing, 0);
    assert LockDrains(s, i, AuthorityRing);
    SolvencyKeptIff(s, i);
  }

  lemma RunOneMore(s: State, ops: seq<Op>, k: nat)
    requires k < |ops| && ops[k].Attempt?
    ensures Run(s, ops[..k + 1]) == Apply(Run(s, ops[..k]), ops[k].intent).state
  {
    assert ops[..k + 1][..k] == ops[..k];
  }

  lemma FirstStage(s: State, ops: seq<Op>)
    requires Stage(s, false, 0, 0) && forall a :: Bal(s.balances, a) == 0
    requires |ops| == 4 && ops[0] == Attempt(GenesisAllocation([(STAKER, 5)]))
    ensures Stage(Run(s, ops[..1]), false, 5, 0)
  {
    assert Run(s, ops[..0]) == s;
    RunOneMore(s, ops, 0);
    GenesisStage(s);
  }

  lemma SecondStage(s: State, ops: seq<Op>)
    requires |ops| == 4 && ops[1] == Attempt(Admit(AuthorityRing, 0, 0, [], [])) && Stage(Run(s, ops[..1]), false, 5, 0)
    ensures Stage(Run(s, ops[..2]), true, 5, 0)
  {
    RunOneMore(s, ops, 1);
    AdmitStage(Run(s, ops[..1]));
  }

  lemma ThirdStage(s: State, ops: seq<Op>)
    requires |ops| == 4 && ops[2] == Attempt(DepositStake(AuthorityRing, STAKER, 0, 5))
    requires Stage(Run(s, ops[..2]), true, 5, 0)
    ensures Stage(Run(s, ops[..3]), true, 0, 5)
  {
    RunOneMore(s, ops, 2);
    StakeStage(Run(s, ops[..2]));
  }

  /** The intents of the counterexample below. */
  ghost predicate Draining(ops: seq<Op>)
  {
    && |ops| == 4 && ops[0] == Attempt(GenesisAllocation([(STAKER, 5)]))
    && ops[1] == Attempt(Admit(AuthorityRing, 0, 0, [], []))
    && ops[2] == Attempt(DepositStake(AuthorityRing, STAKER, 0, 5))
    && ops[3] == Attempt(L1Lock(StakePool(AuthorityRing), 5, Native))
  }

  lemma ThreeStages(s: State, ops: seq<Op>)
    requires Stage(s, false, 0, 0) && (forall a :: Bal(s.balances, a) == 0) && Draining(ops)
    ensures Stage(Run(s, ops[..3]), true, 0, 5)
  {
    FirstStage(s, ops);
    SecondStage(s, ops);
    ThirdStage(s, ops);
  }

  lemma LastStage(s: State, ops: seq<Op>)
    requires Draining(ops) && Stage(Run(s, ops[..3]), true, 0, 5)
    ensures !Solvent(Run(s, ops))
  {
    assert ops[..4] == ops;
    RunOneMore(s, ops, 3);
    LockStage(Run(s, ops[..3]));
  }

  lemma FourStages(s: State, ops: seq<Op>)
    requires Stage(s, false, 0, 0) && (forall a :: Bal(s.balances, a) == 0) && Draining(ops)
    ensures Solvent(Run(s, ops[..3])) && !Solvent(Run(s, ops))
  {
    ThreeStages(s, ops);
    LastStage(s, ops);
  }

  /** Counterexample: a run from the empty ledger that ends with an insolvent stake
      pool.  Five units are allocated, staked on an admitted slot, and then locked
      by a lock that names the pool as its user. */
  lemma ReservedLockBreaksSolvency(s: State, ops: seq<Op>)
    requires s.balances == map[] && s.reg == EMPTY && s.height == 0 && Draining(ops)
    ensures Solvent(Run(s, ops[..3])) && !Solvent(Run(s, ops))
  {
    EmptyStage(s);
    FourStages(s, ops);
  }
}
