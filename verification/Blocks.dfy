/** The block executor (block.rs): intents in order, stop at the first error.
    Every block, and so every chain of blocks, is a run of attempts in the sense
    of module Intents, so the run theorems hold for chains. */
module Blocks {
  import opened Balances
  import opened Registries
  import opened Intents
  import opened Substrate
  import opened SupplyLedger
  import opened SupplyAccount
  import opened Frame
  import opened Solvency
  import opened Lifecycle
  import opened Bridge
  import opened ForceInclude

  datatype Block = Block(round: nat, intents: seq<Intent>)

  datatype FirstError = NoError | At(index: nat, error: Error)

  datatype Report = Report(round: nat, applied: nat, firstError: FirstError, skipped: nat)

  function AsOps(intents: seq<Intent>): (ops: seq<Op>)
    ensures |ops| == |intents|
    ensures forall k | 0 <= k < |ops| :: ops[k] == Attempt(intents[k])
  {
    seq(|intents|, k requires 0 <= k < |intents| => Attempt(intents[k]))
  }

  lemma AsOpsGrows(intents: seq<Intent>, i: Intent)
    ensures AsOps(intents + [i]) == AsOps(intents) + [Attempt(i)]
  {
  }

  lemma RunGrows(s: State, intents: seq<Intent>, i: Intent)
    ensures Run(s, AsOps(intents + [i])) == Apply(Run(s, AsOps(intents)), i).state
  {
    AsOpsGrows(intents, i);
    assert (AsOps(intents) + [Attempt(i)])[..|intents|] == AsOps(intents);
  }

  /** Every one of these attempts succeeds. */
  ghost predicate AllOk(s: State, intents: seq<Intent>)
  {
    forall k | 0 <= k < |intents| :: Apply(Run(s, AsOps(intents[..k])), intents[k]).outcome.Ok?
  }

  /** Where the executor stands after looking at `intents`: everything up to the
      first error applied, the failing intent attempted, the rest skipped. */
  ghost predicate Progress(start: State, intents: seq<Intent>, applied: nat, err: FirstError, skipped: nat, t: State)
  {
    && applied <= |intents| && AllOk(start, intents[..applied])
    && match err
       case NoError => applied == |intents| && skipped == 0 && t == Run(start, AsOps(intents))
       case At(index, error) =>
         && index == applied < |intents| && applied + 1 + skipped == |intents|
         && Apply(Run(start, AsOps(intents[..applied])), intents[applied]).outcome == Err(error)
         && t == Run(start, AsOps(intents[..applied + 1]))
  }

  /** `rep` and `t` are what executing the block from `s` gives. */
  ghost predicate Executes(s: State, block: Block, rep: Report, t: State)
  {
    && rep.round == block.round
    && Progress(s.(height := block.round), block.intents, rep.applied, rep.firstError, rep.skipped, t)
  }

  lemma PrefixGrows(intents: seq<Intent>, k: nat)
    requires k < |intents|
    ensures intents[..k + 1] == intents[..k] + [intents[k]]
  {
  }

  lemma WholePrefix(intents: seq<Intent>)
    ensures intents[..|intents|] == intents && intents[..0] == []
  {
  }

  lemma StartBlock(start: State)
    ensures Progress(start, [], 0, NoError, 0, start)
  {
    assert AsOps([]) == [];
  }

  lemma SkipOne(start: State, intents: seq<Intent>, i: Intent, applied: nat, err: FirstError, skipped: nat, t: State)
    requires err.At? && Progress(start, intents, applied, err, skipped, t)
    ensures Progress(start, intents + [i], applied, err, skipped + 1, t)
  {
    assert (intents + [i])[..applied] == intents[..applied];
    assert (intents + [i])[..applied + 1] == intents[..applied + 1];
  }

  lemma ApplyOne(start: State, intents: seq<Intent>, i: Intent, t: State)
    requires Progress(start, intents, |intents|, NoError, 0, t)
    ensures var r := Apply(t, i);
            Progress(start, intents + [i], if r.outcome.Ok? then |intents| + 1 else |intents|,
                     if r.outcome.Ok? then NoError else At(|intents|, r.outcome.error), 0, r.state)
  {
    var more := intents + [i];
    assert intents[..|intents|] == intents;
    assert more[..|intents|] == intents;
    assert more[..|intents| + 1] == more;
    RunGrows(start, intents, i);
    if Apply(t, i).outcome.Ok? {
      AllOkGrows(start, intents, i);
    }
  }

  lemma NoErrorMeansAll(start: State, intents: seq<Intent>, applied: nat, err: FirstError, skipped: nat, t: State)
    requires Progress(start, intents, applied, err, skipped, t) && err.NoError?
    ensures applied == |intents| && skipped == 0
  {
  }

  method ApplyNext(sub: InMemorySubstrate, i: Intent, ghost start: State, ghost before: seq<Intent>)
    returns (r: Outcome)
    requires sub.Valid() && Progress(start, before, |before|, NoError, 0, sub.Abs())
    modifies sub
    ensures sub.Valid() && r == Apply(old(sub.Abs()), i).outcome
    ensures r.Ok? ==> Progress(start, before + [i], |before| + 1, NoError, 0, sub.Abs())
    ensures r.Err? ==> Progress(start, before + [i], |before|, At(|before|, r.error), 0, sub.Abs())
  {
    ApplyOne(start, before, i, sub.Abs());
    r := sub.ApplyIntent(i);
  }

  method ExecuteBlock(sub: InMemorySubstrate, block: Block) returns (rep: Report)
    requires sub.Valid()
    modifies sub
    ensures sub.Valid() && Executes(old(sub.Abs()), block, rep, sub.Abs())
  {
    var applied, skipped, firstError := 0, 0, NoError;
    ghost var start := sub.Abs().(height := block.round);
    var intents := block.intents;
    sub.SetHeight(block.round);
    StartBlock(start);
    WholePrefix(intents);
    for idx := 0 to |intents|
      invariant sub.Valid() && Progress(start, intents[..idx], applied, firstError, skipped, sub.Abs())
    {
      ghost var before := intents[..idx];
      PrefixGrows(intents, idx);
      if firstError.At? {
        SkipOne(start, before, intents[idx], applied, firstError, skipped, sub.Abs());
        skipped := skipped + 1;
      } else {
        NoErrorMeansAll(start, before, applied, firstError, skipped, sub.Abs());
        var r := ApplyNext(sub, intents[idx], start, before);
        if r.Ok? {
          applied := applied + 1;
        } else {
          firstError := At(idx, r.error);
        }
      }
    }
    rep := Report(block.round, applied, firstError, skipped);
  }

  lemma AllOkGrows(s: State, intents: seq<Intent>, i: Intent)
    requires AllOk(s, intents) && Apply(Run(s, AsOps(intents)), i).outcome.Ok?
    ensures AllOk(s, intents + [i])
  {
    var more := intents + [i];
    forall k | 0 <= k < |more| ensures Apply(Run(s, AsOps(more[..k])), more[k]).outcome.Ok? {
      if k < |intents| {
        assert more[..k] == intents[..k];
      } else {
        assert more[..k] == intents;
      }
    }
  }

  // ----- Chains -----

  lemma {:induction false} RunConcat(s: State, ops: seq<Op>, more: seq<Op>)
    ensures Run(s, ops + more) == Run(Run(s, ops), more)
    decreases |more|
  {
    if more == [] {
      assert ops + more == ops;
    } else {
      assert (ops + more)[..|ops + more| - 1] == ops + more[..|more| - 1];
      RunConcat(s, ops, more[..|more| - 1]);
    }
  }

  /** How many intents of a block were attempted, the failing one included. */
  function Attempted(block: Block, rep: Report): nat
  {
    if rep.firstError.NoError? then |block.intents| else rep.applied + 1
  }

  /** What executing the block does to the ledger, operation by operation. */
  function BlockOps(block: Block, rep: Report): seq<Op>
    requires Attempted(block, rep) <= |block.intents|
  {
    [OpenBlock(block.round)] + AsOps(block.intents[..Attempted(block, rep)])
  }

  lemma OpenThenRun(s: State, h: nat, tail: seq<Op>)
    ensures Run(s, [OpenBlock(h)] + tail) == Run(s.(height := h), tail)
  {
    RunConcat(s, [OpenBlock(h)], tail);
    assert [OpenBlock(h)][..0] == [];
    assert Run(s, [OpenBlock(h)][..0]) == s;
  }

  lemma BlockIsRun(s: State, block: Block, rep: Report, t: State)
    requires Executes(s, block, rep, t)
    ensures Attempted(block, rep) <= |block.intents| && Run(s, BlockOps(block, rep)) == t
  {
    assert block.intents[..|block.intents|] == block.intents;
    OpenThenRun(s, block.round, AsOps(block.intents[..Attempted(block, rep)]));
  }

  /** The states between blocks of an executed chain. */
  ghost predicate ExecutesChain(states: seq<State>, blocks: seq<Block>, reports: seq<Report>)
  {
    && |states| == |blocks| + 1 && |reports| == |blocks|
    && forall k | 0 <= k < |blocks| :: Executes(states[k], blocks[k], reports[k], states[k + 1])
  }

  /** The operations of a chain: each block opened, then its attempted intents. */
  function ChainOps(blocks: seq<Block>, reports: seq<Report>): seq<Op>
    requires |reports| == |blocks|
    requires forall k | 0 <= k < |blocks| :: Attempted(blocks[k], reports[k]) <= |blocks[k].intents|
    decreases |blocks|
  {
    if blocks == [] then []
    else
      var n := |blocks| - 1;
      ChainOps(blocks[..n], reports[..n]) + BlockOps(blocks[n], reports[n])
  }

  lemma AttemptsFit(states: seq<State>, blocks: seq<Block>, reports: seq<Report>)
    requires ExecutesChain(states, blocks, reports)
    ensures forall k | 0 <= k < |blocks| :: Attempted(blocks[k], reports[k]) <= |blocks[k].intents|
  {
    forall k | 0 <= k < |blocks| ensures Attempted(blocks[k], reports[k]) <= |blocks[k].intents| {
      BlockIsRun(states[k], blocks[k], reports[k], states[k + 1]);
    }
  }

  /** A chain is one run: its blocks opened in order, and of each the intents up to
      its first error attempted. */
  lemma {:induction false} ChainIsRun(states: seq<State>, blocks: seq<Block>, reports: seq<Report>)
    requires ExecutesChain(states, blocks, reports)
    ensures forall k | 0 <= k < |blocks| :: Attempted(blocks[k], reports[k]) <= |blocks[k].intents|
    ensures Run(states[0], ChainOps(blocks, reports)) == states[|blocks|]
    decreases |blocks|
  {
    AttemptsFit(states, blocks, reports);
    if blocks != [] {
      var n := |blocks| - 1;
      ChainIsRun(states[..|states| - 1], blocks[..n], reports[..n]);
      BlockIsRun(states[n], blocks[n], reports[n], states[n + 1]);
      RunConcat(states[0], ChainOps(blocks[..n], reports[..n]), BlockOps(blocks[n], reports[n]));
    }
  }

  /** What holds after any chain of blocks from empty registries: sound balances,
      consistent slots, ejections that name slashed obligations; and solvent stake
      pools throughout exactly when no attempted lock drains one. */
  lemma ChainSafety(b: Ledger, states: seq<State>, blocks: seq<Block>, reports: seq<Report>)
    requires Sound(b) && ExecutesChain(states, blocks, reports) && states[0] == State(b, EMPTY, 0)
    ensures forall k | 0 <= k < |blocks| :: Attempted(blocks[k], reports[k]) <= |blocks[k].intents|
    ensures var end, ops := states[|blocks|], ChainOps(blocks, reports);
            && Sound(end.balances) && Consistent(end) && EjectionsNameSlashed(end)
            && (AlwaysSolvent(states[0], ops) <==> SafeLocks(states[0], ops))
            && (SafeLocks(states[0], ops) ==> Solvent(end))
  {
    ChainIsRun(states, blocks, reports);
    var ops := ChainOps(blocks, reports);
    PoolsAlwaysSolvent(b, 0, ops);
    RunKeepsSound(states[0], ops);
    RunKeepsConsistent(states[0], ops);
    RunKeepsEjections(states[0], ops);
  }

  /** In any chain a burn is paid at most once however often it is presented, no
      more is created than the mints let through, and releases from the escrow are
      covered.  The supply's account is exact, and from sound balances the escrow's is;
      while failing attempts have room nothing leaks and nothing is destroyed. */
  lemma ChainAccounting(states: seq<State>, blocks: seq<Block>, reports: seq<Report>)
    requires ExecutesChain(states, blocks, reports)
    ensures forall k | 0 <= k < |blocks| :: Attempted(blocks[k], reports[k]) <= |blocks[k].intents|
    ensures var start, end, ops := states[0], states[|blocks|], ChainOps(blocks, reports);
            var before, after := Bal(start.balances, ESCROW), Bal(end.balances, ESCROW);
            && (forall id :: Payouts(start, ops, id) <= 1)
            && Supply(end.balances) <= Supply(start.balances) + LetThrough(start, ops)
            && after + Released(start, ops) + Leaked(start, ops) <= before + Locked(start, ops)
            && (Sound(start.balances) ==>
                  after + Released(start, ops) + Leaked(start, ops) == before + Locked(start, ops))
            && Supply(end.balances) + Destroyed(start, ops)
            == Supply(start.balances) + Minted(start, ops) + HalfMinted(start, ops)
            && (RoomThroughout(start, ops) ==>
                  Leaked(start, ops) == 0 && Supply(end.balances) == Supply(start.balances) + Minted(start, ops))
  {
    ChainIsRun(states, blocks, reports);
    var start, ops := states[0], ChainOps(blocks, reports);
    forall id ensures Payouts(start, ops, id) <= 1 { BurnPaidAtMostOnce(start, ops, id); }
    RunNeverCreates(start, ops);
    ReleasesAreCovered(start, ops);
    RunSupply(start, ops);
    if Sound(start.balances) {
      EscrowAccounting(start, ops);
    }
    if RoomThroughout(start, ops) {
      NothingLeaks(start, ops);
      NothingDestroyed(start, ops);
    }
  }
}
