/** Bridge accounting: what the escrow holds over whole runs, and that a burn is
    paid at most once. */
module Bridge {
  import opened Balances
  import opened Registries
  import opened Intents
  import opened Moves
  import opened SupplyLedger
  import opened Frame
  import opened RegistryFrame

  /** What an applied intent puts into the escrow; a lock out of the escrow itself
      only turns money over. */
  function EscrowIn(i: Intent): nat
  {
    match i
    case GenesisAllocation(cs) => SumTo(cs, ESCROW)
    case L1Lock(user, x, _) => if user == ESCROW then 0 else x
    case _ => 0
  }

  /** What an applied intent releases from the escrow. */
  function EscrowOut(i: Intent): nat
  {
    if i.L2BurnProven? then i.amount else 0
  }

  /** The one leak: a burn that is debited although its recipient cannot be credited. */
  function EscrowLeak(s: State, i: Intent): nat
  {
    if && i.L2BurnProven? && Gate(s, i) == []
       && 0 < i.amount <= Bal(s.balances, ESCROW) && Bal(s.balances, i.recipient) + i.amount > U128_MAX
    then i.amount else 0
  }

  function In(s: State, i: Intent): nat
  {
    if Apply(s, i).outcome.Ok? then EscrowIn(i) else 0
  }

  function Out(s: State, i: Intent): nat
  {
    if Apply(s, i).outcome.Ok? then EscrowOut(i) else 0
  }

  lemma LockEscrow(s: State, i: Intent)
    requires i.L1Lock? && Gate(s, i) == []
    ensures var m := MoveOf(s.balances, s.reg, i);
            && (m.outcome.Ok? ==> Bal(m.balances, ESCROW) == Bal(s.balances, ESCROW) + EscrowIn(i))
            && (m.outcome.Err? ==> Bal(m.balances, ESCROW) <= Bal(s.balances, ESCROW))
            && (m.outcome.Err? && Sound(s.balances) ==> Bal(m.balances, ESCROW) == Bal(s.balances, ESCROW))
  {
    DebitThenCreditPays(s.balances, i.user, ESCROW, i.amount);
  }

  lemma BurnEscrow(s: State, i: Intent)
    requires i.L2BurnProven? && Gate(s, i) == []
    ensures var m := MoveOf(s.balances, s.reg, i);
            && (m.outcome.Ok? ==>
                  Bal(m.balances, ESCROW) + EscrowOut(i) == Bal(s.balances, ESCROW) && EscrowLeak(s, i) == 0)
            && (m.outcome.Err? ==> Bal(m.balances, ESCROW) + EscrowLeak(s, i) == Bal(s.balances, ESCROW))
  {
    DebitThenCreditPays(s.balances, ESCROW, i.recipient, i.amount);
  }

  lemma OtherEscrow(s: State, i: Intent)
    requires !i.L1Lock? && !i.L2BurnProven? && Gate(s, i) == []
    ensures var m := MoveOf(s.balances, s.reg, i);
            Bal(m.balances, ESCROW) == Bal(s.balances, ESCROW) + if m.outcome.Ok? then EscrowIn(i) else 0
  {
    if i.GenesisAllocation? {
      CreditManyPays(s.balances, i.allocations);
    } else {
      MoveSpares(s, i, ESCROW);
    }
  }

  /** One step: nothing leaves the escrow but what is released or leaked. */
  lemma EscrowStep(s: State, i: Intent)
    ensures var after := Bal(Apply(s, i).state.balances, ESCROW);
            && after + Out(s, i) + EscrowLeak(s, i) <= Bal(s.balances, ESCROW) + In(s, i)
            && (Sound(s.balances) ==> after + Out(s, i) + EscrowLeak(s, i) == Bal(s.balances, ESCROW) + In(s, i))
  {
    ApplyParts(s, i);
    if Gate(s, i) == [] {
      if i.L1Lock? {
        LockEscrow(s, i);
      } else if i.L2BurnProven? {
        BurnEscrow(s, i);
      } else {
        OtherEscrow(s, i);
      }
    }
  }

  /** A burn with room does not leak. */
  lemma RoomMeansNoLeak(s: State, i: Intent)
    requires HasRoom(s, i)
    ensures EscrowLeak(s, i) == 0
  {
    if EscrowLeak(s, i) > 0 {
      ApplyParts(s, i);
      BurnEscrow(s, i);
      IntentSupply(s, i);
    }
  }

  // ----- Whole runs -----

  ghost function Locked(s: State, ops: seq<Op>): nat
    decreases |ops|
  {
    if ops == [] then 0
    else
      var init, op := ops[..|ops| - 1], ops[|ops| - 1];
      Locked(s, init) + if op.Attempt? then In(Run(s, init), op.intent) else 0
  }

  ghost function Released(s: State, ops: seq<Op>): nat
    decreases |ops|
  {
    if ops == [] then 0
    else
      var init, op := ops[..|ops| - 1], ops[|ops| - 1];
      Released(s, init) + if op.Attempt? then Out(Run(s, init), op.intent) else 0
  }

  ghost function Leaked(s: State, ops: seq<Op>): nat
    decreases |ops|
  {
    if ops == [] then 0
    else
      var init, op := ops[..|ops| - 1], ops[|ops| - 1];
      Leaked(s, init) + if op.Attempt? then EscrowLeak(Run(s, init), op.intent) else 0
  }

  /** Over every run whatsoever, what was released is covered by what went in. */
  lemma {:induction false} ReleasesAreCovered(s: State, ops: seq<Op>)
    ensures Bal(Run(s, ops).balances, ESCROW) + Released(s, ops) + Leaked(s, ops)
         <= Bal(s.balances, ESCROW) + Locked(s, ops)
    decreases |ops|
  {
    if ops != [] {
      var init, op := ops[..|ops| - 1], ops[|ops| - 1];
      ReleasesAreCovered(s, init);
      if op.Attempt? {
        EscrowStep(Run(s, init), op.intent);
      }
    }
  }

  /** The exact account of every run: the start plus what went in is what is left
      plus what was released plus what leaked. */
  lemma {:induction false} EscrowAccounting(s: State, ops: seq<Op>)
    requires Sound(s.balances)
    ensures Bal(Run(s, ops).balances, ESCROW) + Released(s, ops) + Leaked(s, ops)
         == Bal(s.balances, ESCROW) + Locked(s, ops)
    decreases |ops|
  {
    if ops != [] {
      var init, op := ops[..|ops| - 1], ops[|ops| - 1];
      EscrowAccounting(s, init);
      RunKeepsSound(s, init);
      if op.Attempt? {
        EscrowStep(Run(s, init), op.intent);
      }
    }
  }

  /** While the failing attempts have room nothing leaks. */
  lemma {:induction false} NothingLeaks(s: State, ops: seq<Op>)
    requires RoomThroughout(s, ops)
    ensures Leaked(s, ops) == 0
    decreases |ops|
  {
    if ops != [] {
      var init, op := ops[..|ops| - 1], ops[|ops| - 1];
      NothingLeaks(s, init);
      if op.Attempt? {
        RoomMeansNoLeak(Run(s, init), op.intent);
      }
    }
  }

  // ----- Nullifiers -----

  /** The operation pays out burn `id` in state `s`. */
  ghost predicate PaysBurn(s: State, op: Op, id: Digest)
  {
    && op.Attempt? && op.intent.L2BurnProven? && op.intent.amount > 0
    && BurnId(op.intent) == id && Apply(s, op.intent).outcome.Ok?
  }

  /** The operation presents burn `id` past every gate, paid or not. */
  ghost predicate ClaimsBurn(s: State, op: Op, id: Digest)
  {
    && op.Attempt? && op.intent.L2BurnProven? && op.intent.amount > 0
    && BurnId(op.intent) == id && !op.intent.recipient.Reserved?
    && AssetGate(s.reg, op.intent.asset) == [] && (op.intent.chain, op.intent.batch) in s.reg.batches
    && id !in s.reg.nullifiers
  }

  /** A burn is recorded exactly when it is claimed past the gates, even if the
      payment then fails. */
  lemma NullifierStep(s: State, op: Op, id: Digest)
    ensures id in Do(s, op).reg.nullifiers <==> id in s.reg.nullifiers || ClaimsBurn(s, op, id)
    ensures PaysBurn(s, op, id) ==> ClaimsBurn(s, op, id)
  {
    if op.Attempt? {
      ApplyParts(s, op.intent);
      RegistriesKept(s, op.intent);
    }
  }

  /** How often a run pays out burn `id`. */
  ghost function Payouts(s: State, ops: seq<Op>, id: Digest): nat
    decreases |ops|
  {
    if ops == [] then 0
    else
      var init, op := ops[..|ops| - 1], ops[|ops| - 1];
      Payouts(s, init, id) + if PaysBurn(Run(s, init), op, id) then 1 else 0
  }

  /** No burn is paid twice; one that was ever recorded, successfully or not, is
      never paid again. */
  lemma {:induction false} BurnPaidAtMostOnce(s: State, ops: seq<Op>, id: Digest)
    ensures Payouts(s, ops, id) <= 1
    ensures id in s.reg.nullifiers ==> Payouts(s, ops, id) == 0 && id in Run(s, ops).reg.nullifiers
    ensures Payouts(s, ops, id) == 1 ==> id in Run(s, ops).reg.nullifiers
    decreases |ops|
  {
    if ops != [] {
      var init, op := ops[..|ops| - 1], ops[|ops| - 1];
      BurnPaidAtMostOnce(s, init, id);
      NullifierStep(Run(s, init), op, id);
    }
  }
}
