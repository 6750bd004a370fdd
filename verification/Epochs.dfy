/** Inflation and rewards epochs: each is served once, and later ones later. */
module Epochs {
  import opened Registries
  import opened Intents
  import opened RegistryFrame
  import opened Effects

  /** The three things that happen once per epoch. */
  datatype Clock = Minting | Rewarding(ring: Ring)

  /** The last epoch on record. */
  function LastEpoch(r: Registries, c: Clock): nat
  {
    match c
    case Minting => r.lastMinted
    case Rewarding(AuthorityRing) => r.lastAuthorityRewards
    case Rewarding(ValidatorRing) => r.lastValidatorRewards
  }

  /** The operation is a successful mint, or a successful distribution to the ring. */
  ghost predicate Ticks(s: State, op: Op, c: Clock)
  {
    && op.Attempt? && Apply(s, op.intent).outcome.Ok?
    && match c
       case Minting => op.intent.MintInflation?
       case Rewarding(ring) => op.intent.DistributeRewards? && op.intent.ring == ring
  }

  function EpochOf(op: Op): nat
  {
    if op.Attempt? && op.intent.MintInflation? then op.intent.epoch
    else if op.Attempt? && op.intent.DistributeRewards? then op.intent.epoch
    else 0
  }

  lemma MintStep(s: State, i: Intent)
    requires i.MintInflation?
    ensures Ticks(s, Attempt(i), Minting) ==>
              s.reg.lastMinted < i.epoch && Apply(s, i).state.reg == s.reg.(lastMinted := i.epoch)
    ensures !Ticks(s, Attempt(i), Minting) ==> Apply(s, i).state.reg == s.reg
  {
    MintEffect(s, i.epoch, i.authorityShare, i.validatorShare, i.treasuryShare);
  }

  lemma RewardsStep(s: State, i: Intent)
    requires i.DistributeRewards?
    ensures Ticks(s, Attempt(i), Rewarding(i.ring)) ==>
              && LastEpoch(s.reg, Rewarding(i.ring)) < i.epoch
              && Apply(s, i).state.reg == WithLastRewards(s.reg, i.ring, i.epoch)
    ensures !Ticks(s, Attempt(i), Rewarding(i.ring)) ==> Apply(s, i).state.reg == s.reg
  {
    RewardsEffect(s, i.epoch, i.ring, i.recipients);
  }

  /** An operation moves a clock exactly when it serves it, and then to a later epoch. */
  lemma ClockStep(s: State, op: Op, c: Clock)
    ensures Ticks(s, op, c) ==> LastEpoch(s.reg, c) < EpochOf(op)
    ensures LastEpoch(Do(s, op).reg, c) == if Ticks(s, op, c) then EpochOf(op) else LastEpoch(s.reg, c)
  {
    if op.Attempt? {
      RegistriesKept(s, op.intent);
      if op.intent.MintInflation? {
        MintStep(s, op.intent);
      } else if op.intent.DistributeRewards? {
        RewardsStep(s, op.intent);
      }
    }
  }

  /** The epochs a run serves, in order. */
  ghost function Served(s: State, ops: seq<Op>, c: Clock): seq<nat>
    decreases |ops|
  {
    if ops == [] then []
    else
      var init, op := ops[..|ops| - 1], ops[|ops| - 1];
      Served(s, init, c) + if Ticks(Run(s, init), op, c) then [EpochOf(op)] else []
  }

  ghost predicate Rising(epochs: seq<nat>)
  {
    forall j, k | 0 <= j < k < |epochs| :: epochs[j] < epochs[k]
  }

  /** The epochs lie beyond `first` and rise to `last`. */
  ghost predicate RiseTo(epochs: seq<nat>, first: nat, last: nat)
  {
    && Rising(epochs)
    && (forall k | 0 <= k < |epochs| :: first < epochs[k] <= last)
    && last == if epochs == [] then first else epochs[|epochs| - 1]
  }

  lemma RisesFurther(epochs: seq<nat>, first: nat, last: nat, next: nat)
    requires RiseTo(epochs, first, last) && last < next
    ensures RiseTo(epochs + [next], first, next)
  {
    assert first <= last;
  }

  /** Along every run the epochs served strictly rise, from beyond the last one on
      record at the start to the last one on record at the end: no epoch is minted or
      rewarded twice. */
  lemma {:induction false} EpochsRise(s: State, ops: seq<Op>, c: Clock)
    ensures RiseTo(Served(s, ops, c), LastEpoch(s.reg, c), LastEpoch(Run(s, ops).reg, c))
    decreases |ops|
  {
    if ops != [] {
      var init, op := ops[..|ops| - 1], ops[|ops| - 1];
      EpochsRise(s, init, c);
      ClockStep(Run(s, init), op, c);
      if Ticks(Run(s, init), op, c) {
        RisesFurther(Served(s, init, c), LastEpoch(s.reg, c), LastEpoch(Run(s, init).reg, c), EpochOf(op));
      } else {
        assert Served(s, ops, c) == Served(s, init, c);
      }
    }
  }

  /** In particular two operations of a run that serve a clock serve different epochs,
      the later one a later epoch. */
  lemma EpochServedOnce(s: State, ops: seq<Op>, c: Clock, j: nat, k: nat)
    requires j < k < |ops|
    requires Ticks(Run(s, ops[..j]), ops[j], c) && Ticks(Run(s, ops[..k]), ops[k], c)
    ensures EpochOf(ops[j]) < EpochOf(ops[k])
  {
    var next: nat := j + 1;
    assert ops[..next][..j] == ops[..j];
    ClockStep(Run(s, ops[..j]), ops[j], c);
    ClockStep(Run(s, ops[..k]), ops[k], c);
    ClockNeverFalls(s, ops[..k], next, c);
    assert ops[..k][..next] == ops[..next];
  }

  lemma {:induction false} ClockNeverFalls(s: State, ops: seq<Op>, j: nat, c: Clock)
    requires j <= |ops|
    ensures LastEpoch(Run(s, ops[..j]).reg, c) <= LastEpoch(Run(s, ops).reg, c)
    decreases |ops|
  {
    if j < |ops| {
      var init := ops[..|ops| - 1];
      assert init[..j] == ops[..j];
      ClockNeverFalls(s, init, j, c);
      ClockStep(Run(s, init), ops[|ops| - 1], c);
    } else {
      assert ops[..j] == ops;
    }
  }
}
