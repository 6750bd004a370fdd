# Suwappu: DAG consensus and the execution ledger, modelled and proved in Dafny

The project models two parts of the chain.

**Consensus** (`crates/suwappu-consensus`). Certificates form an append-only DAG. A
leader slot is decided by a direct rule (a quorum of next-round supporters) or by an
indirect rule (a later directly decided anchor that has the leader certificate in its
causal history), and `finalize` flattens the histories of committed leaders into one
sequence. Two-ring commits add a stake quorum.

**Execution** (`crates/suwappu-execution`). `apply_intent` moves balances and rewrites
registries for every kind of intent, and the block executor applies intents in order until
the first error.

## How to read the modules

| modules | what they hold |
|---|---|
| `Sets`, `Certs`, `Causality` | certificates, the linearization order, ancestors and histories |
| `DagStores` | the store class, insertion, the by-round index, linearization, runs of insertions |
| `Commit` | the decision rules as definitions on the DAG, and the indexed code proved against them |
| `Reference` | the linearize-based forms and their equality with the indexed code |
| `Finality`, `FinalizedOrder` | what an extension does to one decision and to the finalized sequence |
| `Counterexamples` | small DAGs, each built by insertions, where extensions break expectations |
| `Agreement`, `SplitView`, `SkippedView` | what two views share, and where that stops |
| `Equivocation`, `JointQuorum` | equivocation proofs, stake, the two-ring theorem |
| `Balances`, `Moves` | sound balance maps, sums, and what each balance primitive does |
| `Registries`, `Intents` | the state, and each intent as gates, a move of money and registry writes |
| `Substrate` | the in-memory substrate class, method by method, proved equal to `Intents.Apply` |
| `SupplyLedger`, `SupplyAccount` | what creates value, and the exact account of every run |
| `Effects` | what each intent answers, pays and records, without its gates, moves and writes |
| `Bookkeeping` | every attempt as postings between accounts, and every balance of every run as their sum |
| `Frame`, `RegistryFrame` | reserved accounts, registry frames |
| `Solvency`, `Lifecycle`, `Epochs`, `Bridge`, `ForceInclude`, `Atomicity` | the laws of whole runs |
| `Blocks` | the block executor and chains of blocks |
| `RegistryCodec`, `RegistryGrammar` | the slot registry's bytes: writing, reading, and exactly what is accepted |
| `Persistence` | why typed registries stand for the stored bytes |

A *run* is any sequence of opened blocks and attempted intents, failing ones included
(`Intents.Run`). `Blocks.ChainIsRun` shows that every executed chain of blocks is a run, so
the run laws hold for chains.

## Where code and documentation disagree

The model follows the code. Where a promise fails there is a lemma with a concrete input, and
lemmas that say when the code does keep it.

- *No extension can uncommit a leader* (`commit.rs` 27-32, `proptest_dagbft_commit.rs` 3-5). The
  leader's second certificate with a smaller hash uncommits it (`Counterexamples.ExtensionCanUncommit`).
  A commit that rests on an anchor is lost even while its own slot gains nothing, if the anchor's leader
  signs twice (`Counterexamples.IndirectCommitCanBeSkipped`); that is the move `commit.rs` 210-212 rules out.
  `Finality.CommitSurvivesIff` says exactly when a commit by either rule survives, and without
  equivocation every decision is final (`Finality.RunDecisionsClimb`).
- *Skip is final* (`proptest_indirect_commit.rs` 22-24). A late citation commits a skipped slot with no
  equivocation at all (`Counterexamples.SkipCanBecomeDirect`), as `proptest_late_arrival.rs` asks. It stays
  skipped exactly while an anchor is left, no quorum forms and no new anchor reaches its leader
  certificate (`Finality.SkipSurvivesIff`).
- *`finalize(D)` is a prefix of `finalize(D')`* (`proptest_dagbft_commit.rs` 192-194). Such a late commit
  puts its history in front of what was already finalized (`Counterexamples.LateCommitGoesInFront`). The
  old output is a prefix of the new one exactly when every slot committed behind the old front puts out
  what the old output had next (`FinalizedOrder.AppendOnlyIff`).
- *Every honest node has committed the same certificates in one total order* (`IQ-007` 125-127). Two nodes
  without a single fault can finalize sequences of which neither continues the other: one skips a slot that
  the other commits through a round the first has not decided directly (`SkippedView.SkipSplitsOrder`).
  A commit by either rule through round `a` is shared by every node that has decided `a`, or a round at least
  two above it, directly (`Agreement.CommitIsFollowed`); a node that does not share it has decided directly only
  rounds below `a` and perhaps `a + 1` (`Agreement.UnfollowedIsBehind`). `Agreement.SameOrderIff` and
  `Agreement.OrderAgreementIff` say exactly when the two orders agree, and two nodes that have caught up with
  each other finalize the same sequence (`Agreement.EvenNodesFinalizeAlike`).
- *A conflict needs a third of the authorities* (`joint.rs` 12-21). True when both commits are direct, and
  then a third really signed twice (`JointQuorum.ConflictCatchesSigners`), so within the fault bound two
  direct commits never conflict (`Agreement.DirectCommitsAgree`). If one of them is indirect, one
  equivocating leader is enough and the measured set can be empty
  (`SplitView.LeaderEquivocationSplitsViews`, `Agreement.DirectCommitAgreement`).
- *An equivocator signs two different certificates* (`joint.rs` 162-168). One certificate that cites both
  candidates is counted too (`JointQuorum.EquivocatorMayHaveSignedOnce`). A member signed twice exactly
  when its slot is not a single certificate citing both (`JointQuorum.EquivocatorSignedTwiceIff`).
- *A failing intent leaves the state unchanged* (`substrate.rs` 825, 844-846). `Atomicity.AtomicityIff`
  lists the guards under which it does not. While the supply fits u128 one case is left, a burn the escrow
  cannot cover (`Atomicity.OnlyUncoveredBurnsTear`).
- *A failing escrow credit undoes the lock's debit* (`substrate.rs` 2238-2245):
  `SupplyLedger.FailedLockDestroysValue`; the lock's case of `Atomicity.AtomicityIff` is the exact condition.
- *Only dedicated arms touch protocol accounts* (`reserved.rs` 19-25). The lock arm does not test its source.
  `Frame.ReservedFrame` says exactly when a protocol balance moves, `Solvency.SolvencyKeptIff` exactly when
  that leaves a stake pool short, and `Solvency.ReservedLockBreaksSolvency` is a run in which it does.

## Modelling choices

- Hashes, author ids, rounds, heights and amounts are natural numbers. u128 and u64 limits are
  explicit wherever the code checks or saturates; the slash products wrap as in a release build.
- Certificates hash through an arbitrary function. That it has no collisions between two views is
  a stated premise of the results that compare views (`Agreement.Compatible`).
- Signatures are not part of the hash and are never read by the modelled code, so they are dropped.
- Obligation and burn digests are symbolic, hence injective.
- An address is a user or one of the twenty reserved accounts.
- The Authority and Validator arms are mirror images; the model has one arm with a ring parameter.
- The outcome of the L2 proof verifier is a parameter of `CommitL2StateRoot`.

## Model

| member | source | states |
|---|---|---|
| `DagStores.DagStore.Insert` | crates/suwappu-consensus/src/dag.rs:70-101 | decides by the four checks in their order, names the first bad parent, keeps the DAG well formed, keyed by hash and indexed, and changes nothing on rejection |
| `DagStores.InsertedIffAccepted` | crates/suwappu-consensus/src/dag.rs:70-101 | insertion succeeds exactly for known strictly older parents and a fresh hash; the genesis check adds nothing |
| `DagStores.ReplayInvariant` | crates/suwappu-consensus/src/dag.rs:70-101 | every run of insertions keeps the DAG well formed, keyed by hash and append-only |
| `DagStores.AcceptedContent` | crates/suwappu-consensus/src/dag.rs:70-101 | after a run without rejections the DAG stores exactly the inserted certificates |
| `DagStores.DagStore.RoundHashes` | crates/suwappu-consensus/src/dag.rs:108-110 | the index lists the hashes of a round, each once, as a scan of the whole DAG would |
| `DagStores.DagStore.MaxRoundIndexed` | crates/suwappu-consensus/src/dag.rs:122-124 | the greatest index key is the greatest round of any certificate |
| `DagStores.DagStore.Linearize` | crates/suwappu-consensus/src/dag.rs:138-149 | the round-by-round sort equals the one strictly sorted listing of all hashes |
| `DagStores.LinearizationShape` | crates/suwappu-consensus/tests/proptest_dag_order.rs:140-195 | every hash once, parents before children, in order of round, then author, then hash |
| `DagStores.OrderIndependent` | crates/suwappu-consensus/tests/proptest_dag_order.rs:114-137 | two successful insertion orders of the same certificates give the same DAG and linearization |
| `Causality.AncestorsLeast` | crates/suwappu-consensus/src/commit.rs:270-308 | the ancestor set is the least parent-closed set around its start (with `AncestorsClosed`) |
| `Causality.HistoryShape` | crates/suwappu-consensus/src/commit.rs:270-308 | a history has no repeats, lists parents first and ends at its start |
| `Commit.QuorumThreshold` | crates/suwappu-consensus/src/commit.rs:61-66 | the least number above two thirds of the committee, reached even when any third, rounded down from n - 1, is silent |
| `Commit.RoundRobin` | crates/suwappu-consensus/src/commit.rs:69-72 | author 0 leads round 0, the next author the next round, and any n consecutive rounds see each author lead exactly once |
| `Commit.CertAt` | crates/suwappu-consensus/src/commit.rs:82-93 | the indexed lookup returns the least hash of that author and round |
| `Commit.Supporters` | crates/suwappu-consensus/src/commit.rs:97-109 | the indexed scan returns the authors of that round who cite the target |
| `Commit.TryDirectDecide` | crates/suwappu-consensus/src/commit.rs:146-158 | Direct exactly for a leader certificate with a quorum of next-round supporters |
| `Commit.CausalHistory` | crates/suwappu-consensus/src/commit.rs:279-308 | the breadth-first walk terminates and returns the ancestors in linearization order, nothing for a missing start |
| `Commit.TryIndirectDecide` | crates/suwappu-consensus/src/commit.rs:169-186 | Direct if the anchor reaches the leader certificate, Skip otherwise, also when either is missing |
| `Commit.DecideSlot` | crates/suwappu-consensus/src/commit.rs:216-258 | the early-returning anchor scan equals the order-free decision: committed directly or by some anchor, skipped if there are anchors and none inherits, else open |
| `Commit.NoDecisionBeyondMax` | crates/suwappu-consensus/src/commit.rs:311-340 | no slot at or past the last round is ever committed |
| `Commit.CommitLeader` | crates/suwappu-consensus/src/commit.rs:263-268 | returns a hash exactly when the slot is committed to it |
| `Commit.Finalize` | crates/suwappu-consensus/src/commit.rs:317-340 | the loop with its included-set equals the finalized sequence of the DAG |
| `Reference.CertAtMatchesReference` | crates/suwappu-consensus/src/commit.rs:613-755 | the linear search of the linearization finds the indexed lookup's hash, equivocation included |
| `Reference.SupportersMatchReference` | crates/suwappu-consensus/src/commit.rs:613-755 | the whole-DAG supporter scan equals the indexed one |
| `Reference.CausalHistoryMatchesReference` | crates/suwappu-consensus/src/commit.rs:613-755 | filtering the linearization by ancestry gives the same sequence |
| `Reference.MaxRoundMatchesReference` | crates/suwappu-consensus/src/commit.rs:613-755 | the linear maximum equals the index maximum |
| `Reference.DecideMatchesReference` | crates/suwappu-consensus/src/commit.rs:613-755 | the reference scan decides every slot as the indexed code does |
| `Reference.FinalizeMatchesReference` | crates/suwappu-consensus/src/commit.rs:613-755 | the two committed sequences are equal on every well-formed DAG |
| `Finality.DirectCommitSurvivesIff` | crates/suwappu-consensus/src/commit.rs:27-32 | a direct commit survives an extension exactly when the leader's slot gains no smaller hash |
| `Finality.CommitSurvivesIff` | crates/suwappu-consensus/src/commit.rs:188-258 | a commit by either rule survives exactly when its hash stays least in its slot and it has a quorum, or an old anchor keeps its slot, or a new anchor reaches it |
| `Finality.CommitSurvivesLocally` | crates/suwappu-consensus/src/commit.rs:188-258 | two slots suffice: the commit's own and that of one anchor it rests on |
| `Finality.DecisionsClimb` | crates/suwappu-consensus/src/commit.rs:188-258 | while leader lookups are stable decisions only climb Undecided, Skip, Direct and a committed hash stays |
| `Finality.NoEquivocationKeepsLeaders` | crates/suwappu-consensus/src/commit.rs:27-32 | an extension without equivocation keeps every leader lookup |
| `Finality.RunDecisionsClimb` | crates/suwappu-consensus/tests/proptest_dagbft_commit.rs:84-119 | along any run of insertions without equivocation every intermediate commit is the final one |
| `Counterexamples.ExtensionCanUncommit` | crates/suwappu-consensus/src/commit.rs:27-32 | counterexample: one more insertion turns Direct into Undecided |
| `Counterexamples.IndirectCommitCanBeSkipped` | crates/suwappu-consensus/src/commit.rs:210-215 | counterexample: an indirect commit turns into Skip although its own slot gains nothing |
| `Counterexamples.GrowthIsInsertion` | crates/suwappu-consensus/src/dag.rs:70-101 | every growth of a well-formed DAG keyed by hash is a run of insertions, so every example here is reachable |
| `Counterexamples.SkipCanBecomeDirect` | crates/suwappu-consensus/tests/proptest_indirect_commit.rs:20-24 | counterexample: Skip becomes Direct in an extension without equivocation |
| `Finality.SkipSurvivesIff` | crates/suwappu-consensus/tests/proptest_late_arrival.rs:1-25 | a skipped slot stays skipped exactly when an anchor is left, its leader certificate has no quorum and no new anchor reaches it; old anchors never change their verdict |
| `Finality.SkipNeverReopens` | crates/suwappu-consensus/tests/proptest_indirect_commit.rs:20-24 | with stable leader lookups a skipped slot is never open again |
| `Finality.SkipStaysWhenUncited` | crates/suwappu-consensus/tests/proptest_late_arrival.rs:265-333 | a skipped slot stays skipped when nothing the extension brings reaches its leader certificate |
| `FinalizedOrder.FinalizeCorrect` | crates/suwappu-consensus/src/commit.rs:311-340 | no repeats, parents first, and exactly the ancestors of committed leaders |
| `FinalizedOrder.FinalizedSaturates` | crates/suwappu-consensus/src/commit.rs:317-340 | the exclusive loop bound loses nothing |
| `FinalizedOrder.FinalizedSetGrows` | crates/suwappu-consensus/tests/proptest_dagbft_commit.rs:193-223 | the finalized set never shrinks |
| `FinalizedOrder.FinalizeSharesPrefix` | crates/suwappu-consensus/tests/proptest_dagbft_commit.rs:193-223 | outputs agree below the first newly committed slot, and the old output is a prefix if there is none |
| `Counterexamples.LateCommitGoesInFront` | crates/suwappu-consensus/tests/proptest_dagbft_commit.rs:193-223 | counterexample: without equivocation an extension's output does not start with the old output |
| `FinalizedOrder.PrefixIff` | crates/suwappu-consensus/src/commit.rs:311-340 | for any two DAGs of which the second keeps the commits of the first, one output is a prefix of the other exactly when every slot only the second commits, behind the front of the first, puts out what the first has next |
| `FinalizedOrder.AppendOnlyIff` | crates/suwappu-consensus/tests/proptest_dagbft_commit.rs:192-223 | the old output is a prefix of the new one exactly when every slot committed behind the old front puts out what the old output had next |
| `FinalizedOrder.AppendOnlySuffices` | crates/suwappu-consensus/tests/proptest_dagbft_commit.rs:192-223 | it is enough that each such slot continues the old output or adds nothing |
| `FinalizedOrder.AppendOnlyAtTheFront` | crates/suwappu-consensus/tests/proptest_dagbft_commit.rs:192-223 | in particular when nothing is committed behind the old front |
| `FinalizedOrder.SameBoundariesIff` | crates/suwappu-consensus/src/commit.rs:311-340 | two outputs agree at every slot boundary exactly when no slot that only one of them commits brings anything new |
| `FinalizedOrder.BoundariesKeptIff` | crates/suwappu-consensus/src/commit.rs:311-340 | nothing moves at any slot boundary exactly when every newly committed slot adds nothing there |
| `Agreement.SharedHashesAgree` | crates/suwappu-consensus/src/cert.rs:90-105 | stores keyed by one collision-free hash are compatible |
| `Agreement.QuorumsOverlap` | crates/suwappu-consensus/src/commit.rs:56-66 | two quorums share at least a third of the committee, rounded up |
| `Agreement.ResponsiveQuorumCommits` | crates/suwappu-consensus/src/commit.rs:43-66 | a leader certificate cited by everyone but f silent authors is decided directly |
| `Agreement.QuorumReachesEverything` | crates/suwappu-consensus/src/commit.rs:146-186 | within the fault bound a quorum-supported certificate is an ancestor of every certificate two or more rounds later |
| `Agreement.DirectCommitIsInherited` | crates/suwappu-consensus/src/commit.rs:146-186 | the same across two views, for a certificate that one view committed directly |
| `Agreement.ConflictCostsSignatures` | crates/suwappu-consensus/src/joint.rs:12-21 | two conflicting direct commits mean a third of the committee, rounded up, signed two different certificates at the next round |
| `Agreement.DirectCommitsAgree` | crates/suwappu-consensus/src/commit.rs:146-158 | within the fault bound two direct commits of a slot are the same, whatever its leader does |
| `Agreement.DirectCommitAgreement` | crates/suwappu-consensus/src/commit.rs:216-258 | another view neither skips a directly committed slot nor commits another hash there exactly when it has no anchor for it or its leader slot holds no smaller hash |
| `Agreement.OneLeaderCertAgrees` | crates/suwappu-consensus/src/commit.rs:216-258 | so it always agrees or is undecided when the leader signed once |
| `Agreement.AgreementIff` | crates/suwappu-consensus/src/commit.rs:216-258 | with any number of leader certificates, a view with an anchor agrees exactly when its leader slot holds no smaller hash |
| `Agreement.ConflictMeansLeaderEquivocates` | crates/suwappu-consensus/src/commit.rs:216-268 | two different commits of one slot, by whichever rules, mean the leader signed twice |
| `Agreement.CommitIsFollowed` | crates/suwappu-consensus/src/commit.rs:216-268 | a slot one view commits through round `a`, by either rule, is committed alike by every view that has decided `a` or a round two or more above it directly, exactly when their leader lookups of the slot agree |
| `Agreement.UnfollowedIsBehind` | crates/suwappu-consensus/src/commit.rs:216-268 | a view that does not commit it has decided directly only rounds below `a`, and perhaps `a + 1` |
| `Agreement.CommitFollowedIff` | crates/suwappu-consensus/src/commit.rs:216-268 | the other view agrees exactly when it has caught up with `a` or one of those few rounds commits the slot for it |
| `Agreement.TotalOrderAgreement` | crates/suwappu-consensus/src/commit.rs:311-340 | two nodes finalize the same sequence, order included, over any stretch of slots that both leave uncommitted or that one commits, by either rule, through a round the other has caught up with, where their leader lookups agree |
| `Agreement.SameOrderIff` | crates/suwappu-consensus/src/commit.rs:311-340 | whatever they have decided, they agree at every slot boundary exactly when no slot that only one of them commits adds anything |
| `Agreement.OpenSlotIsNearTheTop` | crates/suwappu-consensus/src/commit.rs:216-258 | above an open slot at most the next slot can be committed |
| `Agreement.OutputsSharePrefix` | crates/suwappu-consensus/src/commit.rs:317-340 | that common sequence is a prefix of both nodes' outputs |
| `Agreement.AheadIff` | crates/suwappu-consensus/src/commit.rs:216-258 | to have caught up with another node only the last two rounds that node may have decided directly matter |
| `Agreement.OrderAgreementIff` | crates/suwappu-consensus/src/commit.rs:311-340 | a node that has caught up with another has finalized everything the other has, and the other's output is a prefix of its own exactly when every slot it alone commits, behind the other's front, puts out what the other has next |
| `Agreement.EvenNodesFinalizeAlike` | crates/suwappu-consensus/src/commit.rs:311-340 | two nodes that have caught up with each other finalize the same sequence |
| `SkippedView.SkipSplitsOrder` | docs/iq/IQ-007-governance-authorization-consensus-rule.md:123-127 | counterexample: four authorities, no equivocation, every certificate citing a quorum, and outputs of which neither continues the other; once with the skipping node below the committing round, once just above it |
| `SplitView.LeaderEquivocationSplitsViews` | crates/suwappu-consensus/src/joint.rs:12-21 | counterexample: four authorities, one equivocating leader, two views that commit different hashes and an empty equivocator set |
| `Equivocation.DetectAuthorityEquivocation` | crates/suwappu-consensus/src/equivocation.rs:68-89 | reports exactly one proof per doubly used slot, its two least hashes, in ascending order |
| `Equivocation.DetectValidatorDoubleVote` | crates/suwappu-consensus/src/equivocation.rs:96-117 | reports exactly the validators with two candidates, with their two least, in ascending order |
| `Equivocation.ProofPerSlot` | crates/suwappu-consensus/src/equivocation.rs:68-89 | a slot has a proof exactly if it holds two certificates, and then one |
| `Equivocation.ProofNamesLookup` | crates/suwappu-consensus/src/equivocation.rs:68-89 | a proof's first hash is the one the commit rule looks up |
| `Equivocation.NoProofsMeansNoEquivocation` | crates/suwappu-consensus/src/equivocation.rs:68-89 | an empty report is the premise of finality |
| `JointQuorum.StakeTable.Insert` | crates/suwappu-consensus/src/joint.rs:76-82 | replaces one weight; the computed total moves by the difference |
| `JointQuorum.StakeTable.Remove` | crates/suwappu-consensus/src/joint.rs:84-87 | drops one weight and returns it; the computed total falls by it |
| `JointQuorum.ValidatorQuorumThreshold` | crates/suwappu-consensus/src/joint.rs:118-122 | the least stake above two thirds of the total |
| `JointQuorum.ValidatorQuorumMeans` | crates/suwappu-consensus/src/joint.rs:118-145 | the stake quorum is met exactly by more than two thirds of all stake |
| `JointQuorum.VotersMean` | crates/suwappu-consensus/src/joint.rs:126-135 | a validator counts for a candidate exactly if it voted for it |
| `JointQuorum.VotingStake` | crates/suwappu-consensus/src/joint.rs:126-135 | counts each voter's weight once, however often they vote |
| `JointQuorum.JointCommit` | crates/suwappu-consensus/src/joint.rs:147-160 | returns a hash exactly when both rings ratify it |
| `JointQuorum.EquivocatorMeans` | crates/suwappu-consensus/src/joint.rs:162-190 | the equivocator set holds exactly the authors whose certificates of that round cite both candidates |
| `JointQuorum.EquivocatorMayHaveSignedOnce` | crates/suwappu-consensus/src/joint.rs:162-190 | counterexample: a member that signed a single certificate |
| `JointQuorum.EquivocatorSignedTwiceIff` | crates/suwappu-consensus/src/joint.rs:162-190 | a member did not sign twice exactly when its one certificate of that round cites both candidates |
| `JointQuorum.ConflictingCommitsCostAuthorities` | crates/suwappu-consensus/src/joint.rs:12-21 | two direct commits put a third of the committee, rounded up, in the measured set |
| `JointQuorum.ConflictCatchesSigners` | crates/suwappu-consensus/src/joint.rs:12-21 | and for different hashes that many of them signed two different certificates |
| `JointQuorum.ConflictingQuorumsCostStake` | crates/suwappu-consensus/src/joint.rs:12-21 | two stake quorums, even on different vote lists, share more than a third of all stake |
| `JointQuorum.DoubleVoteStakeMeans` | crates/suwappu-consensus/src/joint.rs:187-216 | the measured stake is that of exactly the validators who voted for both candidates; a proof of that double vote names one of them, and whoever voted for nothing else has that proof |
| `JointQuorum.JointConflictNeedsBothRings` | crates/suwappu-consensus/tests/proptest_joint_quorum.rs:157-209 | conflicting joint commits by either rule mean that the leader signed twice and double voters hold more than a third of stake; if both are direct, that a third of the committee signed twice and is measured |
| `Balances.SameBalancesSameLedger` | crates/suwappu-execution/src/substrate.rs:822-828 | equal balances mean equal maps, so the state is canonical |
| `Moves.TransferInternalPays` | crates/suwappu-execution/src/substrate.rs:1052-1092 | exact success condition, what each address gains or loses, unchanged supply, nothing changed on failure |
| `Moves.DebitThenCreditPays` | crates/suwappu-execution/src/substrate.rs:1040-1220 | the same for a debit followed by a credit, with the debit left behind when the credit fails |
| `Moves.CreditManyPays` | crates/suwappu-execution/src/substrate.rs:1094-1124 | all or nothing; each address gains its sum over the list; succeeds exactly when every sum fits |
| `Moves.DrainPays` | crates/suwappu-execution/src/substrate.rs:1126-1192 | the same with the source drained by the total, the source being a recipient included |
| `Moves.BatchesIgnoreOrder` | crates/suwappu-execution/src/substrate.rs:1094-1192 | permuting a batch changes neither success nor result |
| `Moves.SlashPays` | crates/suwappu-execution/src/substrate.rs:2404-2575 | what a slash leaves at the bond, the insurance pool, the treasury and everywhere else |
| `Moves.LivenessSlashIsSmall` | crates/suwappu-execution/src/substrate.rs:51-53 | a slash is at most a twentieth of the bond, wrap-around included, and never the whole of it |
| `Moves.TreasuryShareCoversBounty` | crates/suwappu-execution/src/substrate.rs:77-84 | the treasury's share of a slash covers the bounty paid from it |
| `Substrate.InMemorySubstrate.CreditUncheckedAt` | crates/suwappu-execution/src/substrate.rs:1040-1050 | checked credit that keeps the map sound |
| `Substrate.InMemorySubstrate.DebitUncheckedAt` | crates/suwappu-execution/src/substrate.rs:1201-1220 | checked debit that removes a zero entry |
| `Substrate.InMemorySubstrate.TransferInternalBetween` | crates/suwappu-execution/src/substrate.rs:1059-1092 | the in-place transfer does what `TransferInternalPays` describes |
| `Substrate.InMemorySubstrate.CreditMany` | crates/suwappu-execution/src/substrate.rs:1104-1124 | staging over a side map equals crediting the whole list at once |
| `Substrate.InMemorySubstrate.DrainAndCredit` | crates/suwappu-execution/src/substrate.rs:1135-1192 | staging with a drained source equals debit and batch credit, or leaves the map alone |
| `Substrate.InMemorySubstrate.TransferArm` | crates/suwappu-execution/src/substrate.rs:1600-1648 | refuses reserved endpoints, passes zero and self transfers, and otherwise ends in the state and outcome of `Intents.Apply` |
| `Substrate.InMemorySubstrate.GenesisArm` | crates/suwappu-execution/src/substrate.rs:1655-1668 | only at height 0; then the batch credit, all or nothing, as in `Intents.Apply` |
| `Substrate.InMemorySubstrate.MintArm` | crates/suwappu-execution/src/substrate.rs:1675-1717 | epoch gate, three pools credited together or none, then the epoch recorded, as in `Intents.Apply` |
| `Substrate.InMemorySubstrate.RewardsArm` | crates/suwappu-execution/src/substrate.rs:1723-1784 | epoch gate, no reserved recipient, pool drained to all recipients or untouched, as in `Intents.Apply` |
| `Substrate.InMemorySubstrate.DelegateArm` | crates/suwappu-execution/src/substrate.rs:1790-1843 | gates in order, pool paid before the delegation is recorded, as in `Intents.Apply` |
| `Substrate.InMemorySubstrate.AdmitArm` | crates/suwappu-execution/src/substrate.rs:1848-1894 | key lengths and vacancy gate a fresh active slot, as in `Intents.Apply` |
| `Substrate.InMemorySubstrate.ExitArm` | crates/suwappu-execution/src/substrate.rs:1895-1921 | an active slot becomes exiting with the current height as its stamp, as in `Intents.Apply` |
| `Substrate.InMemorySubstrate.EjectArm` | crates/suwappu-execution/src/substrate.rs:1922-1973 | clamped deposit through the 70/30 waterfall, then the record emptied, as in `Intents.Apply` |
| `Substrate.InMemorySubstrate.DepositStakeArm` | crates/suwappu-execution/src/substrate.rs:2724-2813 | active slot and u64 gates, transfer, then the record, as in `Intents.Apply` |
| `Substrate.InMemorySubstrate.WithdrawStakeArm` | crates/suwappu-execution/src/substrate.rs:2818-2941 | exiting status, elapsed cooldown and deposit gates, transfer, then the record, as in `Intents.Apply` |
| `Substrate.InMemorySubstrate.LockArm` | crates/suwappu-execution/src/substrate.rs:2219-2249 | asset gate, then debit and credit in turn, as in `Intents.Apply` |
| `Substrate.InMemorySubstrate.BurnArm` | crates/suwappu-execution/src/substrate.rs:2266-2326 | recipient, asset, batch and nullifier gates; the nullifier stays when the payment fails, as in `Intents.Apply` |
| `Substrate.InMemorySubstrate.ForceIncludeArm` | crates/suwappu-execution/src/substrate.rs:2340-2372 | registers a pending obligation once, as in `Intents.Apply` |
| `Substrate.InMemorySubstrate.SlashMissedArm` | crates/suwappu-execution/src/substrate.rs:2404-2491 | marks a pending obligation, slashes, splits and pays the bounty in that order, as in `Intents.Apply` |
| `Substrate.InMemorySubstrate.SlashSafetyArm` | crates/suwappu-execution/src/substrate.rs:2521-2575 | records an offense once and forfeits the safety bond, as in `Intents.Apply` |
| `Substrate.InMemorySubstrate.EjectSequencerArm` | crates/suwappu-execution/src/substrate.rs:2619-2686 | records one ejection per slashed obligation and pays a clamped bounty, as in `Intents.Apply` |
| `Substrate.InMemorySubstrate.DistributeArm` | crates/suwappu-execution/src/substrate.rs:2987-3014 | refuses reserved counterparties, then credits in turn without rollback, as in `Intents.Apply` |
| `Substrate.InMemorySubstrate.ApplyIntent` | crates/suwappu-execution/src/substrate.rs:1598-3107 | the whole dispatch changes the three fields exactly as `Intents.Apply` says and keeps the map sound |
| `Effects.TransferEffect` | crates/suwappu-execution/src/substrate.rs:1600-1654 | the answer to every transfer; on success the sender pays the recipient and no one else notices; registries stay |
| `Effects.GenesisEffect` | crates/suwappu-execution/src/substrate.rs:1655-1674 | works at height 0 only, and then pays every entry of its list or none |
| `Effects.MintEffect` | crates/suwappu-execution/src/substrate.rs:1675-1722 | succeeds exactly in a later epoch with room in all three pools; pays each pool its own share and records the epoch |
| `Effects.RewardsEffect` | crates/suwappu-execution/src/substrate.rs:1723-1789 | succeeds exactly in a later epoch, for users only and within the pool and u128; the pool pays each entry and the epoch is recorded |
| `Effects.DelegateEffect` | crates/suwappu-execution/src/substrate.rs:1790-1847 | the answer to every delegation; on success the delegator pays the validator pool and only that delegator's entry at that validator grows, by the amount |
| `Effects.DepositEffect` | crates/suwappu-execution/src/substrate.rs:2724-2817 | the answer to every deposit; on success the depositor pays the ring's pool and the slot's deposit grows by the amount |
| `Effects.WithdrawEffect` | crates/suwappu-execution/src/substrate.rs:2818-2942 | succeeds exactly for a user, an exiting slot, 2,419,200 blocks (saturating) after its stamp, within the deposit, the pool and the recipient's room; the pool pays the recipient and the deposit falls by the amount |
| `Effects.AdmitEffect` | crates/suwappu-execution/src/substrate.rs:1848-1894 | the answer to every admission; a fresh active slot with the given keys and stake |
| `Effects.ExitEffect` | crates/suwappu-execution/src/substrate.rs:1895-1921 | an active slot becomes exiting, stamped with the current height |
| `Effects.EjectEffect` | crates/suwappu-execution/src/substrate.rs:1922-1975 | empties any slot and splits its deposit, as far as the pool reaches, between insurance and treasury |
| `Effects.CommitEffect` | crates/suwappu-execution/src/substrate.rs:2099-2188 | a batch is recorded exactly under a verified proof and the chain's pinned nonzero key |
| `Effects.SetKeyEffect` | crates/suwappu-execution/src/substrate.rs:2189-2218 | pins the aggregation key unless both keys are zero |
| `Effects.LockEffect` | crates/suwappu-execution/src/substrate.rs:2219-2265 | asset checks, then the user pays the escrow; what a failing credit leaves |
| `Effects.BurnEffect` | crates/suwappu-execution/src/substrate.rs:2266-2339 | the checks in order, the nullifier recorded, then the escrow pays the recipient |
| `Effects.ForceIncludeEffect` | crates/suwappu-execution/src/substrate.rs:2340-2403 | a new obligation is pending and carries its deadline, submitter and nonce |
| `Effects.StrikeEffect` | crates/suwappu-execution/src/substrate.rs:2404-2520 | a pending obligation is marked slashed; on success bond, insurance, treasury and submitter move by the slash, its split and the bounty |
| `Effects.ForfeitEffect` | crates/suwappu-execution/src/substrate.rs:2521-2579 | an offense is recorded once under its own kind and the whole safety bond is split |
| `Effects.DowntimeEffect` | crates/suwappu-execution/src/substrate.rs:2580-2587 | nothing happens |
| `Effects.HonoredEffect` | crates/suwappu-execution/src/substrate.rs:2588-2618 | a pending obligation becomes honoured; anything else is refused |
| `Effects.EjectSequencerEffect` | crates/suwappu-execution/src/substrate.rs:2619-2691 | one ejection per slashed obligation, recorded under its ejector, who is paid the bounty as far as the treasury reaches |
| `Effects.SequencerBondEffect` | crates/suwappu-execution/src/substrate.rs:2692-2704 | a user pays the liveness bond |
| `Effects.SafetyBondEffect` | crates/suwappu-execution/src/substrate.rs:2705-2723 | a user pays the safety bond |
| `Effects.DisburseEffect` | crates/suwappu-execution/src/substrate.rs:2943-2961 | the treasury pays a user |
| `Effects.ClaimEffect` | crates/suwappu-execution/src/substrate.rs:2962-2981 | the insurance pool pays a user |
| `Effects.DistributionEffect` | crates/suwappu-execution/src/substrate.rs:2987-3019 | users, insurance and treasury each get their share; a distribution that stops has paid the credits that fit together from the front |
| `Effects.AddAssetEffect` | crates/suwappu-execution/src/substrate.rs:3020-3075 | field lengths 64, 64 and 16; a new asset is active |
| `Effects.MarkAssetEffect` | crates/suwappu-execution/src/substrate.rs:3076-3106 | a known asset is paused or removed |
| `Effects.LivenessSlashMeans` | crates/suwappu-execution/src/substrate.rs:24-31 | a twentieth of the bond while the product fits u128 |
| `Effects.InsuranceShareMeans` | crates/suwappu-execution/src/substrate.rs:2455-2456 | seven tenths of a slash while the product fits u128 |
| `Effects.SnitchBountyMeans` | crates/suwappu-execution/src/substrate.rs:62-85 | the lesser of a tenth of the slash and a million, for every slash |
| `Bookkeeping.EveryIntentPosts` | crates/suwappu-execution/src/substrate.rs:1598-3107 | every attempt, applied or failing, changes every balance by exactly its postings: who pays whom, what is minted, what a failing arm loses |
| `Bookkeeping.EveryBalanceIsBooked` | crates/suwappu-execution/src/substrate.rs:1598-3107 | over every run every balance is its opening balance plus its income less its outgo |
| `Bookkeeping.OnlyPayersAreCharged` | crates/suwappu-execution/src/substrate.rs:1598-3107 | a user's money leaves only by an intent that names that user as payer, and by exactly its amount |
| `Bookkeeping.UnnamedNeverPays` | crates/suwappu-execution/src/substrate.rs:1598-3107 | a run that never names a user as payer never lowers that user's balance |
| `SupplyLedger.IntentSupply` | crates/suwappu-execution/src/substrate.rs:1598-3107 | an applied intent changes the supply by exactly what it mints, with no bound on anything; no attempt creates more than it mints and a refused one nothing; a failing one moves nothing unless its arm writes as it goes and u128 has no room |
| `SupplyLedger.RunNeverCreates` | crates/suwappu-execution/src/substrate.rs:1598-3107 | no run whatsoever creates more than the mints it let through |
| `SupplyAccount.IntentAccount` | crates/suwappu-execution/src/substrate.rs:1598-3107 | one attempt: the supply afterwards and what a failing arm destroyed make up the supply before and what was minted, in full or in part |
| `SupplyAccount.RunSupply` | crates/suwappu-execution/src/substrate.rs:1598-3107 | the same account, exact for every run from any state |
| `SupplyAccount.NothingDestroyed` | crates/suwappu-execution/src/substrate.rs:1598-3107 | while failing attempts have room nothing is destroyed or half minted, so the supply moves by exactly what was minted |
| `SupplyLedger.FailedLockDestroysValue` | crates/suwappu-execution/src/substrate.rs:2238-2248 | counterexample: at the u128 limit a failing lock loses the user's money |
| `Frame.ReservedFrame` | crates/suwappu-execution/src/reserved.rs:19-29 | an intent, applied or failing, moves a protocol balance outside its own short list exactly when it is a lock that takes from it |
| `Frame.IntentKeepsSound` | crates/suwappu-execution/src/substrate.rs:1598-3107 | no intent stores a zero balance or one beyond u128 |
| `Frame.RunKeepsSound` | crates/suwappu-execution/src/substrate.rs:1598-3107 | the same over every run |
| `RegistryFrame.RegistriesKept` | crates/suwappu-execution/src/substrate.rs:1598-3107 | each of the thirteen registries changes only under its own intents |
| `Solvency.SolvencyKeptIff` | crates/suwappu-execution/src/substrate.rs:1598-3107 | an intent keeps each stake pool at or above all recorded deposits and delegations exactly when it is not a lock that takes a pool below them |
| `Solvency.RunSolventIff` | crates/suwappu-execution/src/substrate.rs:1598-3107 | a run from a solvent state is solvent throughout exactly when it makes no such lock |
| `Solvency.PoolsAlwaysSolvent` | crates/suwappu-execution/src/substrate.rs:1922-1973 | the same for every run from empty registries, whatever the balances |
| `Solvency.PoolAccount` | crates/suwappu-execution/src/substrate.rs:1790-2942 | every deposit, delegation, withdrawal and ejection moves a pool by exactly as much as its debt; only genesis gifts and locks change what it holds beyond |
| `Solvency.EjectTakesWholeDeposit` | crates/suwappu-execution/src/substrate.rs:1922-1973 | the clamp on an ejection never bites: the whole deposit goes 70 to 30 and the record is emptied; it succeeds while the supply fits u128 |
| `Solvency.WithdrawalIsFunded` | crates/suwappu-execution/src/substrate.rs:2818-2941 | a gated withdrawal never fails for lack of pool funds |
| `Solvency.ReservedLockBreaksSolvency` | crates/suwappu-execution/src/substrate.rs:2219-2249 | counterexample: a run from the empty ledger that ends with an insolvent stake pool |
| `Lifecycle.SlotUntouched` | crates/suwappu-execution/src/substrate.rs:1848-2082 | an intent that does not name a slot leaves it as it is |
| `Lifecycle.RunKeepsSlotLife` | crates/suwappu-execution/src/substrate.rs:1848-2082 | over every run no slot disappears, status only moves forward, keys and declared stake are fixed, the exit stamp is set once and deposits then only fall |
| `Lifecycle.StatusExactly` | crates/suwappu-execution/src/substrate.rs:1848-2097 | a slot's status changes exactly by an applied exit or ejection of it |
| `Lifecycle.SlotAccount` | crates/suwappu-execution/src/substrate.rs:2724-2942 | over every run a slot holds what was paid in, less what was withdrawn and what its ejections took |
| `Lifecycle.DelegationAccount` | crates/suwappu-execution/src/substrate.rs:1790-1847 | over every run a delegator's entry is exactly what that delegator delegated there |
| `Lifecycle.RunKeepsConsistent` | crates/suwappu-execution/src/substrate.rs:1848-2082 | over every run deposits fit u64 and ejected slots hold nothing |
| `Lifecycle.CooldownKeepsStake` | crates/suwappu-execution/src/substrate.rs:2818-2941 | until the release height an exiting slot keeps its whole record unless it is ejected |
| `Lifecycle.CooldownStakeIsSlashable` | crates/suwappu-execution/src/substrate.rs:1922-1973 | throughout the cooldown an ejection takes exactly the stake the slot left with, 70 to 30 |
| `Lifecycle.NoEarlyWithdrawal` | crates/suwappu-execution/src/substrate.rs:33-46 | no withdrawal succeeds within 2,419,200 blocks of the exit, whatever happens in between |
| `Epochs.ClockStep` | crates/suwappu-execution/src/substrate.rs:1675-1789 | an operation moves the mint epoch or a ring's rewards epoch exactly when it serves it, and then to a later epoch |
| `Epochs.EpochsRise` | crates/suwappu-execution/src/substrate.rs:1675-1789 | along every run the epochs served strictly rise, from beyond the last on record at the start to the last on record at the end |
| `Epochs.EpochServedOnce` | crates/suwappu-execution/src/substrate.rs:1675-1789 | no run mints one epoch twice or rewards one ring twice for one epoch |
| `Bridge.ReleasesAreCovered` | crates/suwappu-execution/src/substrate.rs:2219-2326 | over every run whatsoever, what is left plus what was released is covered by the start plus what went in |
| `Bridge.EscrowAccounting` | crates/suwappu-execution/src/substrate.rs:2219-2326 | from sound balances the account is exact, the only leak being a burn debited whose recipient cannot be credited |
| `Bridge.NothingLeaks` | crates/suwappu-execution/src/substrate.rs:2266-2326 | while failing attempts have room nothing leaks |
| `Bridge.NullifierStep` | crates/suwappu-execution/src/substrate.rs:2266-2326 | a burn is recorded exactly when it passes every gate, paid or not |
| `Bridge.BurnPaidAtMostOnce` | crates/suwappu-execution/src/burn_nullifier.rs:59-85 | over every run a burn is paid at most once, and never after it was recorded |
| `ForceInclude.RunObligations` | crates/suwappu-execution/src/force_include.rs:63-78 | obligations are never dropped and only move from Pending to Honored or Slashed |
| `ForceInclude.ObligationExactly` | crates/suwappu-execution/src/force_include.rs:63-78 | every operation: registered pending with its terms, slashed exactly by a strike, honoured exactly by its mark, otherwise as it was |
| `ForceInclude.SettledOnce` | crates/suwappu-execution/src/substrate.rs:2404-2618 | over every run an obligation is settled at most once and its status says how |
| `ForceInclude.EjectionExactly` | crates/suwappu-execution/src/substrate.rs:2619-2691 | an ejection is recorded exactly over a slashed obligation without one, under its ejector |
| `ForceInclude.HonoredNeverEjected` | crates/suwappu-execution/src/substrate.rs:2588-2691 | a sequencer is never ejected over an obligation it honoured |
| `ForceInclude.RunKeepsEjections` | crates/suwappu-execution/src/substrate.rs:2619-2686 | every recorded ejection names a slashed obligation |
| `ForceInclude.SlashedAtMostOnce` | crates/suwappu-execution/src/substrate.rs:2404-2491 | over every run an obligation is slashed at most once and never after it was settled |
| `ForceInclude.StrikeIsSmall` | crates/suwappu-execution/src/substrate.rs:2404-2491 | a slash takes at most a twentieth of the bond even if a later credit fails |
| `ForceInclude.BondErodesSlowly` | crates/suwappu-execution/src/substrate.rs:2404-2491 | after k slashes at least (19/20)^k of the bond is left, and a nonzero bond stays nonzero |
| `ForceInclude.StrikePays` | crates/suwappu-execution/src/substrate.rs:2404-2491 | while the supply fits u128 a slash succeeds and pays insurance, submitter and treasury in full |
| `Atomicity.AtomicityIff` | crates/suwappu-execution/src/substrate.rs:844-846 | a failing intent leaves a trace exactly under the listed guards |
| `Atomicity.OnlyUncoveredBurnsTear` | crates/suwappu-execution/src/substrate.rs:5752-5792 | while the supply fits u128 only a gated burn the escrow cannot cover leaves a trace, and that trace is its nullifier |
| `Blocks.ExecuteBlock` | crates/suwappu-execution/src/block.rs:53-83 | everything before the first error is applied, the failing intent attempted, the rest skipped, and the report says so |
| `Blocks.ChainIsRun` | crates/suwappu-execution/src/block.rs:53-83 | an executed chain is one run: its blocks opened in order, and of each the intents up to its first error attempted |
| `Blocks.ChainSafety` | crates/suwappu-execution/src/block.rs:53-83 | after every chain balances are sound, slots consistent and ejections justified; pools are solvent throughout exactly when no attempted lock drains one |
| `Blocks.ChainAccounting` | crates/suwappu-execution/src/block.rs:53-83 | every chain pays no burn twice, creates no more than the mints let through and covers its releases; the supply account is exact, and the escrow account is from sound balances |
| `RegistryCodec.Encode` | crates/suwappu-execution/src/authority_registry.rs:144-160 | the buffer loop writes version, count and entries in ascending id order |
| `RegistryCodec.HeaderFormat` | crates/suwappu-execution/src/authority_registry.rs:144-160 | version 1, 2 or 3 and the count, as four big-endian bytes each |
| `RegistryCodec.EntryFormat` | crates/suwappu-execution/src/authority_registry.rs:144-160 | the columns in order, with status codes 0, 1 and 2 |
| `RegistryCodec.MostSignificantFirst` | crates/suwappu-execution/src/authority_registry.rs:144-273 | numbers stand most significant byte first |
| `RegistryCodec.Decode` | crates/suwappu-execution/src/authority_registry.rs:165-273 | the cursor loop never reads past the end and returns what its recursive form returns |
| `RegistryGrammar.DecodesIff` | crates/suwappu-execution/src/authority_registry.rs:165-273 | a byte string decodes to a registry exactly when it is empty and so is the registry, or it is a header and one entry per id in some order, no id twice, fields within their columns, lengths within the caps and missing columns zero |
| `RegistryCodec.EntryRoundTrip` | crates/suwappu-execution/src/authority_registry.rs:144-273 | one written entry reads back as its record and leaves the cursor behind it |
| `RegistryCodec.DecodeEncode` | crates/suwappu-execution/src/authority_registry.rs:144-273 | every layout decodes to the records it was written from, with the columns it lacks zero |
| `RegistryCodec.RoundTrip` | crates/suwappu-execution/src/authority_registry.rs:144-273 | the current layout loses nothing |
| `RegistryCodec.EncodeInjective` | crates/suwappu-execution/src/authority_registry.rs:144-160 | different registries have different bytes |
| `Persistence.ReachableRegistryDecodes` | crates/suwappu-execution/src/authority_registry.rs:144-273 | every reachable registry with fewer than 2^32 slots survives being written and read |

## Left out

- ConflictingCommitsCostAuthorities: speaks of commits by the direct rule only, because with an indirect commit the measured set can be empty (`SplitView.LeaderEquivocationSplitsViews`).
- TotalOrderAgreement: leaves out a slot that one node commits through a round the other has not caught up with, because there honest nodes do differ (`SkippedView.SkipSplitsOrder`); `Agreement.SameOrderIff` is exact for all slots.
- BondErodesSlowly: asks that no lock takes money out of the bond account, because such a lock is not a slash (`Frame.ReservedFrame` says when one does).
- Wrap-around of `round + 1` and `round + 2` at the u64 limit, and the u32 casts of counts and committee sizes, are not modelled; both are natural numbers here.
- Overflow of the u128 stake sum in `joint.rs` is not modelled.
- A debug build panics where the slash products overflow; the model follows the wrapping release build.
- BLAKE3, signatures, `state_root` hashing and the L2 proof verifier are parameters or symbolic.
- `CorruptStateRecord` errors: registries are typed maps; `Persistence` shows that stored slot registries always decode. The other registry codecs are not modelled.
- The validator registry codec is the authority codec with another address and adds nothing.
- The methods of the honoured mark, the bonds, the payouts, the assets and the verifying key have no rows of their own; `ApplyIntent` covers them and `Effects` says what they do.
- `SuwappuDbSubstrate`, `checkpoint.rs`, `bridge_header.rs`, the networking, node, RPC and authority crates are not part of this model.
