/** Force-include obligations (force_include.rs and the arms around it): their
    status machine, the bond they drain, and what a slash pays. */
module ForceInclude {
  import opened Sets
  import opened Balances
  import opened Registries
  import opened Intents
  import opened Moves
  import opened SupplyLedger
  import opened Frame
  import opened RegistryFrame
  import opened Effects

  /** An obligation keeps its terms and leaves Pending at most once. */
  ghost predicate Advances(a: Obligation, b: Obligation)
  {
    b == a || (a.status == Pending && b.status != Pending && b.(status := Pending) == a)
  }

  /** One intent past its gates, seen from one obligation. */
  lemma ObligationWritten(s: State, i: Intent, ok: bool, id: Digest)
    requires Gate(s, i) == []
    ensures var before, after := s.reg.obligations, ObligationsAfter(s.reg, i, ok);
            && (id in before ==> id in after && Advances(before[id], after[id]))
            && (id !in before && id in after ==> after[id].status == Pending)
  {
  }

  lemma ObligationStep(s: State, i: Intent, id: Digest)
    ensures var before, after := s.reg.obligations, Apply(s, i).state.reg.obligations;
            && (id in before ==> id in after && Advances(before[id], after[id]))
            && (id !in before && id in after ==> after[id].status == Pending)
  {
    ApplyParts(s, i);
    if Gate(s, i) == [] {
      ObligationWritten(s, i, MoveOf(s.balances, s.reg, i).outcome.Ok?, id);
    }
  }

  /** Obligations are never dropped and only move Pending to Honored or Slashed. */
  lemma {:induction false} RunObligations(s: State, ops: seq<Op>, id: Digest)
    requires id in s.reg.obligations
    ensures id in Run(s, ops).reg.obligations
    ensures Advances(s.reg.obligations[id], Run(s, ops).reg.obligations[id])
    decreases |ops|
  {
    if ops != [] {
      var init, op := ops[..|ops| - 1], ops[|ops| - 1];
      RunObligations(s, init, id);
      if op.Attempt? {
        ObligationStep(Run(s, init), op.intent, id);
      }
    }
  }

  // ----- Ejections -----

  ghost predicate EjectionsNameSlashed(s: State)
  {
    forall id | id in s.reg.ejections :: id in s.reg.obligations && s.reg.obligations[id].status == Slashed
  }

  lemma EjectionWritten(s: State, i: Intent, id: Digest)
    requires Gate(s, i) == [] && id in EjectionsAfter(s.reg, i)
    ensures id in s.reg.ejections || (id in s.reg.obligations && s.reg.obligations[id].status == Slashed)
  {
  }

  lemma IntentKeepsEjections(s: State, i: Intent)
    requires EjectionsNameSlashed(s)
    ensures EjectionsNameSlashed(Apply(s, i).state)
  {
    var t := Apply(s, i).state;
    ApplyParts(s, i);
    forall id | id in t.reg.ejections ensures id in t.reg.obligations && t.reg.obligations[id].status == Slashed {
      if Gate(s, i) == [] { EjectionWritten(s, i, id); }
      ObligationStep(s, i, id);
    }
  }

  /** Every ejection on record names a slashed obligation. */
  lemma {:induction false} RunKeepsEjections(s: State, ops: seq<Op>)
    requires EjectionsNameSlashed(s)
    ensures EjectionsNameSlashed(Run(s, ops))
    decreases |ops|
  {
    if ops != [] {
      RunKeepsEjections(s, ops[..|ops| - 1]);
      if ops[|ops| - 1].Attempt? {
        IntentKeepsEjections(Run(s, ops[..|ops| - 1]), ops[|ops| - 1].intent);
      }
    }
  }

  // ----- Strikes against the bond -----

  /** The operation slashes the pending obligation `id`, whatever becomes of the money. */
  ghost predicate StrikesOn(s: State, op: Op, id: Digest)
  {
    && op == Attempt(SlashSequencer(MissedForceInclude, id))
    && id in s.reg.obligations && s.reg.obligations[id].status == Pending
  }

  ghost function StrikesFor(s: State, ops: seq<Op>, id: Digest): nat
    decreases |ops|
  {
    if ops == [] then 0
    else StrikesFor(s, ops[..|ops| - 1], id) + if StrikesOn(Run(s, ops[..|ops| - 1]), ops[|ops| - 1], id) then 1 else 0
  }

  ghost predicate SlashedIn(s: State, id: Digest)
  {
    id in s.reg.obligations && s.reg.obligations[id].status == Slashed
  }

  ghost predicate HonoredIn(s: State, id: Digest)
  {
    id in s.reg.obligations && s.reg.obligations[id].status == Honored
  }

  /** The operation honours the pending obligation `id`. */
  ghost predicate HonorsOn(s: State, op: Op, id: Digest)
  {
    op == Attempt(MarkForceIncludeHonored(id)) && PendingIn(s, id)
  }

  /** The operation registers obligation `id`, which is not on record yet. */
  ghost predicate RegistersOn(s: State, op: Op, id: Digest)
  {
    && op.Attempt? && op.intent.L2ForceInclude? && id !in s.reg.obligations
    && id == ObligationOf(op.intent.tx, op.intent.deadline, op.intent.submitter, op.intent.nonce)
  }

  /** What an obligation looks like after one operation, for every operation. */
  ghost function ObligationAfter(s: State, op: Op, id: Digest): Option<Obligation>
  {
    if RegistersOn(s, op, id) then
      Some(Obligation(op.intent.deadline, op.intent.submitter, op.intent.nonce, Pending))
    else if id !in s.reg.obligations then None
    else if StrikesOn(s, op, id) then Some(s.reg.obligations[id].(status := Slashed))
    else if HonorsOn(s, op, id) then Some(s.reg.obligations[id].(status := Honored))
    else Some(s.reg.obligations[id])
  }

  ghost function ObligationIn(s: State, id: Digest): Option<Obligation>
  {
    if id in s.reg.obligations then Some(s.reg.obligations[id]) else None
  }

  /** Registered pending with its terms, slashed by a strike, honoured by its mark, and
      otherwise left alone. */
  lemma ObligationExactly(s: State, op: Op, id: Digest)
    ensures ObligationIn(Do(s, op), id) == ObligationAfter(s, op, id)
  {
    if op.Attempt? {
      var i := op.intent;
      if i.L2ForceInclude? {
        ForceIncludeEffect(s, i.tx, i.deadline, i.submitter, i.nonce);
      } else if i.MarkForceIncludeHonored? {
        HonoredEffect(s, i.obligation);
      } else if Strikes(i) {
        StrikeEffect(s, i.offense);
      } else {
        RegistriesKept(s, i);
      }
    }
  }

  /** An obligation is slashed exactly by a strike and honoured exactly by its mark;
      neither happens to one that is settled. */
  lemma StrikeMarks(s: State, op: Op, id: Digest)
    ensures SlashedIn(Do(s, op), id) <==> SlashedIn(s, id) || StrikesOn(s, op, id)
    ensures HonoredIn(Do(s, op), id) <==> HonoredIn(s, id) || HonorsOn(s, op, id)
    ensures SlashedIn(s, id) || HonoredIn(s, id) ==> !StrikesOn(s, op, id) && !HonorsOn(s, op, id)
  {
    ObligationExactly(s, op, id);
  }

  ghost function HonorsFor(s: State, ops: seq<Op>, id: Digest): nat
    decreases |ops|
  {
    if ops == [] then 0
    else HonorsFor(s, ops[..|ops| - 1], id) + if HonorsOn(Run(s, ops[..|ops| - 1]), ops[|ops| - 1], id) then 1 else 0
  }

  /** Over every run an obligation is settled at most once, and its final status says
      how: slashed exactly if it was struck, honoured exactly if it was marked. */
  lemma {:induction false} SettledOnce(s: State, ops: seq<Op>, id: Digest)
    ensures StrikesFor(s, ops, id) + HonorsFor(s, ops, id) <= 1
    ensures SlashedIn(Run(s, ops), id) <==> SlashedIn(s, id) || StrikesFor(s, ops, id) == 1
    ensures HonoredIn(Run(s, ops), id) <==> HonoredIn(s, id) || HonorsFor(s, ops, id) == 1
    ensures SlashedIn(s, id) || HonoredIn(s, id) ==> StrikesFor(s, ops, id) == 0 && HonorsFor(s, ops, id) == 0
    decreases |ops|
  {
    if ops != [] {
      var init, op := ops[..|ops| - 1], ops[|ops| - 1];
      SettledOnce(s, init, id);
      StrikeMarks(Run(s, init), op, id);
    }
  }

  /** The operation ejects the sequencer over the slashed obligation `id`. */
  ghost predicate EjectsOver(s: State, op: Op, id: Digest)
  {
    && op.Attempt? && op.intent.EjectSequencer? && op.intent.obligation == id && op.intent.ejector.User?
    && SlashedIn(s, id) && id !in s.reg.ejections
  }

  /** An ejection is recorded exactly by such an operation, under its ejector. */
  lemma EjectionExactly(s: State, op: Op, id: Digest)
    ensures id in Do(s, op).reg.ejections <==> id in s.reg.ejections || EjectsOver(s, op, id)
    ensures id in s.reg.ejections ==> Do(s, op).reg.ejections[id] == s.reg.ejections[id]
    ensures EjectsOver(s, op, id) ==> Do(s, op).reg.ejections[id] == op.intent.ejector
  {
    if op.Attempt? {
      if op.intent.EjectSequencer? {
        EjectSequencerEffect(s, op.intent.obligation, op.intent.ejector);
      } else {
        RegistriesKept(s, op.intent);
      }
    }
  }

  /** A sequencer that honoured its obligation is never ejected over it. */
  lemma HonoredNeverEjected(s: State, ops: seq<Op>, id: Digest)
    requires EjectionsNameSlashed(s) && HonoredIn(Run(s, ops), id)
    ensures id !in Run(s, ops).reg.ejections
  {
    RunKeepsEjections(s, ops);
  }

  /** An obligation is slashed at most once, and never after it was settled. */
  lemma {:induction false} SlashedAtMostOnce(s: State, ops: seq<Op>, id: Digest)
    ensures StrikesFor(s, ops, id) <= 1
    ensures StrikesFor(s, ops, id) == 1 ==> SlashedIn(Run(s, ops), id)
    ensures id in s.reg.obligations && s.reg.obligations[id].status != Pending ==> StrikesFor(s, ops, id) == 0
    decreases |ops|
  {
    if ops != [] {
      var init, op := ops[..|ops| - 1], ops[|ops| - 1];
      SlashedAtMostOnce(s, init, id);
      if id in s.reg.obligations { RunObligations(s, init, id); }
      StrikeMarks(Run(s, init), op, id);
    }
  }

  ghost predicate StrikesSome(s: State, op: Op)
  {
    op.Attempt? && Strikes(op.intent) && StrikesOn(s, op, op.intent.offense)
  }

  ghost function TotalStrikes(s: State, ops: seq<Op>): nat
    decreases |ops|
  {
    if ops == [] then 0
    else TotalStrikes(s, ops[..|ops| - 1]) + if StrikesSome(Run(s, ops[..|ops| - 1]), ops[|ops| - 1]) then 1 else 0
  }

  ghost function Pow(b: nat, k: nat): nat
  {
    if k == 0 then 1 else b * Pow(b, k - 1)
  }

  /** One strike takes at most a twentieth of the bond and never the last of it,
      even if a later credit fails. */
  lemma StrikeIsSmall(b: Ledger, submitter: Address)
    ensures 20 * Bal(StrikeMove(b, submitter).balances, BOND) >= 19 * Bal(b, BOND)
    ensures Bal(b, BOND) > 0 ==> Bal(StrikeMove(b, submitter).balances, BOND) > 0
  {
    var slash := LivenessSlash(Bal(b, BOND));
    LivenessSlashIsSmall(Bal(b, BOND));
    ShareFits(slash);
    SlashPays(b, BOND, slash);
    if !submitter.Reserved? {
      BountyPays(SlashMoves(b, BOND, slash).balances, submitter, SnitchBounty(slash));
    }
  }

  /** Anything else leaves the bond alone or adds to it. */
  lemma OthersKeepBond(s: State, i: Intent)
    requires !LockTakes(s, i, BOND) && !Strikes(i) && Gate(s, i) == []
    ensures Bal(MoveOf(s.balances, s.reg, i).balances, BOND) >= Bal(s.balances, BOND)
  {
    if i.GenesisAllocation? {
      CreditManyPays(s.balances, i.allocations);
    } else if i.DepositSequencerBond? {
      DebitThenCreditPays(s.balances, i.from, BOND, i.amount);
    } else {
      MoveSpares(s, i, BOND);
    }
  }

  lemma BondStep(s: State, op: Op)
    requires op.Attempt? ==> !LockTakes(s, op.intent, BOND)
    ensures var before, after := Bal(s.balances, BOND), Bal(Do(s, op).balances, BOND);
            && (before > 0 ==> after > 0)
            && (if StrikesSome(s, op) then 20 * after >= 19 * before else after >= before)
  {
    if op.Attempt? {
      ApplyParts(s, op.intent);
      if Gate(s, op.intent) == [] {
        if Strikes(op.intent) {
          StrikeIsSmall(s.balances, s.reg.obligations[op.intent.offense].submitter);
        } else {
          OthersKeepBond(s, op.intent);
        }
      }
    }
  }

  /** `b` is at least (19/20)^k of `start`. */
  ghost predicate ErodedAtMost(start: nat, b: nat, k: nat)
  {
    Pow(20, k) * b >= Pow(19, k) * start
  }

  lemma ErodeOnce(start: nat, b: nat, c: nat, k: nat)
    requires ErodedAtMost(start, b, k) && 20 * c >= 19 * b
    ensures ErodedAtMost(start, c, k + 1)
  {
    var p, q := Pow(20, k), Pow(19, k);
    assert (20 * p) * c == p * (20 * c);
    assert p * (20 * c) >= p * (19 * b);
    assert p * (19 * b) == 19 * (p * b);
    assert (19 * q) * start == 19 * (q * start);
  }

  lemma ErodeNot(start: nat, b: nat, c: nat, k: nat)
    requires ErodedAtMost(start, b, k) && b <= c
    ensures ErodedAtMost(start, c, k)
  {
    assert Pow(20, k) * b <= Pow(20, k) * c;
  }

  /** After k slashes the bond is at least (19/20)^k of what it started as, and a
      nonzero bond never reaches zero. */
  lemma {:induction false} BondErodesSlowly(s: State, ops: seq<Op>)
    requires NoLockTakes(s, ops, BOND)
    ensures ErodedAtMost(Bal(s.balances, BOND), Bal(Run(s, ops).balances, BOND), TotalStrikes(s, ops))
    ensures Bal(s.balances, BOND) > 0 ==> Bal(Run(s, ops).balances, BOND) > 0
    decreases |ops|
  {
    if ops != [] {
      var init, op := ops[..|ops| - 1], ops[|ops| - 1];
      BondErodesSlowly(s, init);
      var mid, k := Run(s, init), TotalStrikes(s, init);
      BondStep(mid, op);
      if StrikesSome(mid, op) {
        ErodeOnce(Bal(s.balances, BOND), Bal(mid.balances, BOND), Bal(Do(mid, op).balances, BOND), k);
      } else {
        ErodeNot(Bal(s.balances, BOND), Bal(mid.balances, BOND), Bal(Do(mid, op).balances, BOND), k);
      }
    }
  }

  // ----- What a slash pays -----

  /** Where a strike's money goes: the bond pays the slash, insurance gets 70
      percent, the submitter the whole bounty, the treasury the rest. */
  ghost predicate StrikeSplit(b: Ledger, c: Ledger, who: Address)
  {
    var slash := LivenessSlash(Bal(b, BOND));
    var bounty := SnitchBounty(slash);
    && InsuranceShare(slash) + bounty <= slash
    && Bal(c, BOND) == Bal(b, BOND) - slash
    && Bal(c, INSURANCE) == Bal(b, INSURANCE) + InsuranceShare(slash)
    && Bal(c, TREASURY) == Bal(b, TREASURY) + (slash - InsuranceShare(slash) - bounty)
    && Bal(c, who) == Bal(b, who) + bounty
  }

  lemma StrikeMovePays(b: Ledger, who: Address)
    requires Supply(b) <= U128_MAX && who.User?
    ensures StrikeMove(b, who).outcome == Ok && StrikeSplit(b, StrikeMove(b, who).balances, who)
  {
    var slash := LivenessSlash(Bal(b, BOND));
    LivenessSlashIsSmall(Bal(b, BOND));
    ShareFits(slash);
    TreasuryShareCoversBounty(slash);
    SlashPays(b, BOND, slash);
    SlashFits(b, BOND, slash);
    var c := SlashMoves(b, BOND, slash).balances;
    BountyPays(c, who, SnitchBounty(slash));
    BountyLaw(c, who, SnitchBounty(slash));
  }

  /** With the supply inside u128 a strike always succeeds and pays everyone in
      full: the clamp on the bounty never bites. */
  lemma StrikePays(s: State, id: Digest)
    requires Supply(s.balances) <= U128_MAX && StrikesOn(s, Attempt(SlashSequencer(MissedForceInclude, id)), id)
    requires s.reg.obligations[id].submitter.User?
    ensures var t := Apply(s, SlashSequencer(MissedForceInclude, id));
            && t.outcome == Ok && StrikeSplit(s.balances, t.state.balances, s.reg.obligations[id].submitter)
            && SlashedIn(t.state, id)
  {
    ApplyParts(s, SlashSequencer(MissedForceInclude, id));
    StrikeMovePays(s.balances, s.reg.obligations[id].submitter);
    StrikeMarks(s, Attempt(SlashSequencer(MissedForceInclude, id)), id);
  }
}
