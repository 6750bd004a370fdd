/** The two-ring AND-gate (joint.rs): a commit needs an authority decision and
    more than two thirds of validator stake on the same hash. */
module JointQuorum {
  import opened Sets
  import opened Certs
  import opened DagStores
  import opened Commit
  import opened Finality
  import opened Agreement
  import opened Counterexamples
  import opened Reference
  import opened Equivocation

  type Weights = map<ValidatorId, nat>

  function Weight(w: Weights, id: ValidatorId): nat
  {
    if id in w then w[id] else 0
  }

  /** Total weight of a set of validators. */
  function StakeOf(w: Weights, s: set<ValidatorId>): nat
    decreases |s|
  {
    if s == {} then 0
    else
      var x := Min(s);
      Weight(w, x) + StakeOf(w, s - {x})
  }

  lemma {:induction false} StakeOfOne(w: Weights, s: set<ValidatorId>, x: ValidatorId)
    requires x in s
    ensures StakeOf(w, s) == Weight(w, x) + StakeOf(w, s - {x})
    decreases |s|
  {
    var m := Min(s);
    if x != m {
      StakeOfOne(w, s - {m}, x);
      StakeOfOne(w, s - {x}, m);
      assert s - {m} - {x} == s - {x} - {m};
    }
  }

  lemma SetsWithout(a: set<ValidatorId>, b: set<ValidatorId>, x: ValidatorId)
    requires x in b
    ensures x in a ==> a + b == a + (b - {x}) && a * b - {x} == a * (b - {x})
    ensures x !in a ==> a + b - {x} == a + (b - {x}) && a * b == a * (b - {x})
  {
  }

  lemma {:induction false} StakeUnion(w: Weights, a: set<ValidatorId>, b: set<ValidatorId>)
    ensures StakeOf(w, a + b) + StakeOf(w, a * b) == StakeOf(w, a) + StakeOf(w, b)
    decreases |b|
  {
    if b == {} {
      assert a + b == a && a * b == {};
    } else {
      var x := Min(b);
      StakeUnion(w, a, b - {x});
      SetsWithout(a, b, x);
      if x in a {
        StakeOfOne(w, a * b, x);
      } else {
        StakeOfOne(w, a + b, x);
      }
    }
  }

  lemma {:induction false} StakeMonotone(w: Weights, a: set<ValidatorId>, b: set<ValidatorId>)
    requires a <= b
    ensures StakeOf(w, a) <= StakeOf(w, b)
  {
    StakeUnion(w, a, b - a);
    assert a + (b - a) == b;
    assert a * (b - a) == {};
  }

  /** Validators outside the table weigh nothing, so no set outweighs the total. */
  lemma {:induction false} StakeBounded(w: Weights, s: set<ValidatorId>)
    ensures StakeOf(w, s) <= StakeOf(w, w.Keys)
    decreases |s|
  {
    if s <= w.Keys {
      StakeMonotone(w, s, w.Keys);
    } else {
      var x :| x in s && x !in w;
      StakeOfOne(w, s, x);
      StakeBounded(w, s - {x});
    }
  }

  class StakeTable {
    var weights: Weights

    constructor ()
      ensures weights == map[]
    {
      weights := map[];
    }

    method Insert(id: ValidatorId, stake: nat)
      modifies this
      ensures weights == old(weights)[id := stake]
      ensures Total() == old(Total()) - Weight(old(weights), id) + stake
    {
      TotalAfterInsert(weights, id, stake);
      weights := weights[id := stake];
    }

    method Remove(id: ValidatorId) returns (prior: Option<nat>)
      modifies this
      ensures weights == old(weights) - {id}
      ensures prior == if id in old(weights) then Some(old(weights)[id]) else None
      ensures Total() == old(Total()) - Weight(old(weights), id)
    {
      TotalAfterRemove(weights, id);
      prior := if id in weights then Some(weights[id]) else None;
      weights := weights - {id};
    }

    function Total(): nat
      reads this
    {
      StakeOf(weights, weights.Keys)
    }
  }

  lemma {:induction false} StakeIgnoresOthers(w: Weights, v: Weights, s: set<ValidatorId>)
    requires forall x | x in s :: Weight(w, x) == Weight(v, x)
    ensures StakeOf(w, s) == StakeOf(v, s)
    decreases |s|
  {
    if s != {} {
      StakeIgnoresOthers(w, v, s - {Min(s)});
    }
  }

  lemma TotalAfterRemove(w: Weights, id: ValidatorId)
    ensures StakeOf(w, w.Keys) == Weight(w, id) + StakeOf(w - {id}, (w - {id}).Keys)
  {
    assert (w - {id}).Keys == w.Keys - {id};
    StakeIgnoresOthers(w, w - {id}, w.Keys - {id});
    if id in w {
      StakeOfOne(w, w.Keys, id);
    } else {
      assert w.Keys - {id} == w.Keys;
    }
  }

  lemma TotalAfterInsert(w: Weights, id: ValidatorId, stake: nat)
    ensures StakeOf(w[id := stake], w[id := stake].Keys) == StakeOf(w, w.Keys) - Weight(w, id) + stake
  {
    TotalAfterRemove(w, id);
    TotalAfterRemove(w[id := stake], id);
    assert w[id := stake] - {id} == w - {id};
  }

  function ValidatorQuorumThreshold(w: Weights): (t: nat)
    ensures 3 * t > 2 * StakeOf(w, w.Keys)
    ensures 3 * (t - 1) <= 2 * StakeOf(w, w.Keys)
  {
    2 * StakeOf(w, w.Keys) / 3 + 1
  }

  /** Everyone who voted for the candidate, once each. */
  function Voters(votes: seq<Vote>, candidate: CertHash): set<ValidatorId>
  {
    set v | v in votes && v.candidate == candidate :: v.validator
  }

  method VotingStake(w: Weights, candidate: CertHash, votes: seq<Vote>) returns (total: nat)
    ensures total == StakeOf(w, Voters(votes, candidate))
  {
    var counted: set<ValidatorId> := {};
    total := 0;
    for i := 0 to |votes|
      invariant counted == Voters(votes[..i], candidate)
      invariant total == StakeOf(w, counted)
    {
      var v := votes[i];
      VotersGrow(votes[..i], v, candidate);
      assert votes[..i + 1] == votes[..i] + [v];
      if v.candidate == candidate && v.validator !in counted {
        StakeOfOne(w, counted + {v.validator}, v.validator);
        assert counted + {v.validator} - {v.validator} == counted;
        counted := counted + {v.validator};
        total := total + Weight(w, v.validator);
      }
    }
    assert votes[..|votes|] == votes;
  }

  lemma VotersGrow(votes: seq<Vote>, v: Vote, candidate: CertHash)
    ensures Voters(votes + [v], candidate)
         == Voters(votes, candidate) + (if v.candidate == candidate then {v.validator} else {})
  {
    assert forall y :: y in votes + [v] <==> y in votes || y == v;
  }

  ghost predicate ValidatorQuorum(w: Weights, candidate: CertHash, votes: seq<Vote>)
  {
    StakeOf(w, Voters(votes, candidate)) >= ValidatorQuorumThreshold(w)
  }

  /** A stake quorum is strictly more than two thirds of all stake. */
  lemma ValidatorQuorumMeans(w: Weights, candidate: CertHash, votes: seq<Vote>)
    ensures ValidatorQuorum(w, candidate, votes)
       <==> 3 * StakeOf(w, Voters(votes, candidate)) > 2 * StakeOf(w, w.Keys)
  {
  }

  method JointCommit(dag: DagStore, round: Round, n: nat, w: Weights, votes: seq<Vote>)
    returns (r: Option<CertHash>)
    requires dag.Valid() && n > 0
    ensures forall h: CertHash ::
              r == Some(h) <==> Decision(dag.certs, round, n) == Direct(h) && ValidatorQuorum(w, h, votes)
  {
    var candidate := CommitLeader(dag, round, n);
    if candidate.None? {
      assert forall h: CertHash :: candidate != Some(h);
      return None;
    }
    var stake := VotingStake(w, candidate.value, votes);
    r := if stake >= ValidatorQuorumThreshold(w) then candidate else None;
  }

  // ----- What a conflict costs -----

  ghost function AuthorityEquivocators(d: Dag, a: CertHash, b: CertHash, round: Round): set<AuthorityId>
  {
    SupportersReference(d, a, round) * SupportersReference(d, b, round)
  }

  function DoubleVoteStake(w: Weights, a: CertHash, b: CertHash, votes: seq<Vote>): nat
  {
    StakeOf(w, Voters(votes, a) * Voters(votes, b))
  }

  /** A validator counts exactly if it voted for the candidate. */
  lemma VotersMean(votes: seq<Vote>, candidate: CertHash, x: ValidatorId)
    ensures x in Voters(votes, candidate) <==> Vote(x, candidate) in votes
  {
  }

  /** The measured stake is that of exactly the validators whose votes include both
      candidates.  A proof of that double vote names one of them, and whoever voted for
      nothing else has that proof. */
  lemma DoubleVoteStakeMeans(w: Weights, a: CertHash, b: CertHash, votes: seq<Vote>, guilty: set<ValidatorId>)
    requires a < b && forall x :: x in guilty <==> Vote(x, a) in votes && Vote(x, b) in votes
    ensures DoubleVoteStake(w, a, b, votes) == StakeOf(w, guilty)
    ensures forall x | x in guilty ::
              && {a, b} <= Candidates(votes, x)
              && (Candidates(votes, x) == {a, b} ==> ProvesDoubleVote(votes, DoubleVoteProof(x, a, b)))
    ensures forall x :: ProvesDoubleVote(votes, DoubleVoteProof(x, a, b)) ==> x in guilty
  {
    forall x ensures x in guilty <==> x in Voters(votes, a) * Voters(votes, b) {
      VotersMean(votes, a, x);
      VotersMean(votes, b, x);
    }
    assert guilty == Voters(votes, a) * Voters(votes, b);
    forall x ensures a in Candidates(votes, x) && b in Candidates(votes, x) <==> x in guilty {
      CandidatesMean(votes, x, a);
      CandidatesMean(votes, x, b);
    }
  }

  lemma CandidatesMean(votes: seq<Vote>, x: ValidatorId, c: CertHash)
    ensures c in Candidates(votes, x) <==> Vote(x, c) in votes
  {
  }

  lemma EquivocatorsAreSharedSupporters(d: Dag, a: CertHash, b: CertHash, round: Round)
    ensures AuthorityEquivocators(d, a, b, round) == SupportersOf(d, a, round) * SupportersOf(d, b, round)
  {
    SupportersMatchReference(d, a, round);
    SupportersMatchReference(d, b, round);
  }

  /** An author in the equivocator set either signed two certificates of that
      round or cites both candidates in one. */
  lemma EquivocatorMeans(d: Dag, a: CertHash, b: CertHash, round: Round, x: AuthorityId)
    ensures x in AuthorityEquivocators(d, a, b, round) <==>
      exists g, h :: && g in SlotSet(d, round, x) && h in SlotSet(d, round, x)
                     && a in d[g].parents && b in d[h].parents
  {
    EquivocatorsAreSharedSupporters(d, a, b, round);
  }

  /** One certificate that cites both candidates is enough to be in the set. */
  ghost function CitesBoth(): Dag
  {
    map h | h in {1, 2, 10} :: if h < 10 then Certificate(0, 0, [], h) else Certificate(1, 1, [1, 2], 0)
  }

  lemma BothCitedOnce()
    ensures SupportersOf(CitesBoth(), 1, 1) == {1} && SupportersOf(CitesBoth(), 2, 1) == {1}
  {
    assert CitesBoth()[10].author == 1;
  }

  lemma AuthorOneSignedOnce()
    ensures 1 !in Equivocators(CitesBoth())
  {
  }

  lemma CitesBothBuilt()
    ensures BuiltFrom(map[], CitesBoth())
  {
    BuiltByInsertions(map[], CitesBoth());
  }

  /** Counterexample to "signed two different certificates": author 1 signed one. */
  lemma EquivocatorMayHaveSignedOnce()
    ensures BuiltFrom(map[], CitesBoth())
    ensures AuthorityEquivocators(CitesBoth(), 1, 2, 1) == {1} && 1 !in Equivocators(CitesBoth())
  {
    CitesBothBuilt();
    BothCitedOnce();
    AuthorOneSignedOnce();
    EquivocatorsAreSharedSupporters(CitesBoth(), 1, 2, 1);
  }

  /** A member of the set either signed twice at that round, or signed one
      certificate only and that one cites both candidates. */
  lemma EquivocatorSignedTwiceIff(d: Dag, a: CertHash, b: CertHash, round: Round, x: AuthorityId)
    requires x in AuthorityEquivocators(d, a, b, round)
    ensures x !in SignedTwice(d, round) <==>
              exists g :: SlotSet(d, round, x) == {g} && g in d && a in d[g].parents && b in d[g].parents
  {
    EquivocatorMeans(d, a, b, round, x);
    SignedTwiceIff(d, round, x);
    var s, t :| s in SlotSet(d, round, x) && t in SlotSet(d, round, x) && a in d[s].parents && b in d[t].parents;
    if |SlotSet(d, round, x)| < 2 {
      AllTheSame(SlotSet(d, round, x), s);
    }
  }

  lemma AllTheSame(slot: set<CertHash>, s: CertHash)
    requires s in slot && |slot| < 2
    ensures slot == {s}
  {
    assert |slot - {s}| == 0;
  }

  lemma SignedTwiceIff(d: Dag, round: Round, x: AuthorityId)
    ensures x in SignedTwice(d, round) <==> |SlotSet(d, round, x)| >= 2
  {
    if x in SignedTwice(d, round) {
      TwoInSlot(d, round, x);
    } else if |SlotSet(d, round, x)| >= 2 {
      TwoFromSlot(d, round, x);
    }
  }

  lemma TwoInSlot(d: Dag, round: Round, x: AuthorityId)
    requires x in SignedTwice(d, round)
    ensures |SlotSet(d, round, x)| >= 2
  {
    var h :| h in d && d[h].round == round && d[h].author == x
             && exists g :: g in d && g != h && d[g].round == round && d[g].author == d[h].author;
    var g :| g in d && g != h && d[g].round == round && d[g].author == d[h].author;
    SubsetSize({g, h}, SlotSet(d, round, x));
  }

  lemma TwoFromSlot(d: Dag, round: Round, x: AuthorityId)
    requires |SlotSet(d, round, x)| >= 2
    ensures x in SignedTwice(d, round)
  {
    var slot := SlotSet(d, round, x);
    var h :| h in slot;
    assert |slot - {h}| >= 1;
    var g :| g in slot - {h};
    assert g in d && g != h && d[g].round == round && d[g].author == d[h].author;
  }

  /** Authority leg: two views that directly commit different hashes at round `r`
      put at least ceil(n / 3) authors in the equivocator set of round `r + 1`,
      in every DAG that contains both views. */
  lemma ConflictingCommitsCostAuthorities(v: Dag, w: Dag, u: Dag, n: nat, r: Round, g: CertHash, h: CertHash)
    requires n > 0 && Grows(v, u) && Grows(w, u) && AuthorsInCommittee(u, n)
    requires DirectDecision(v, r, n) == Direct(g) && DirectDecision(w, r, n) == Direct(h)
    ensures |AuthorityEquivocators(u, g, h, r + 1)| >= (n + 2) / 3
  {
    QuorumInLargerDag(v, u, n, r, g);
    QuorumInLargerDag(w, u, n, r, h);
    SharedSupport(u, n, r, g, h);
  }

  lemma QuorumInLargerDag(v: Dag, u: Dag, n: nat, r: Round, h: CertHash)
    requires n > 0 && Grows(v, u) && DirectDecision(v, r, n) == Direct(h)
    ensures |SupportersOf(u, h, r + 1)| >= QuorumThreshold(n)
  {
    SupportGrows(v, u, h, r + 1);
  }

  lemma SharedSupport(u: Dag, n: nat, r: Round, g: CertHash, h: CertHash)
    requires n > 0 && AuthorsInCommittee(u, n)
    requires |SupportersOf(u, g, r + 1)| >= QuorumThreshold(n) && |SupportersOf(u, h, r + 1)| >= QuorumThreshold(n)
    ensures |AuthorityEquivocators(u, g, h, r + 1)| >= (n + 2) / 3
  {
    EquivocatorsAreSharedSupporters(u, g, h, r + 1);
    SupportersInCommittee(u, n, g, r + 1);
    SupportersInCommittee(u, n, h, r + 1);
    QuorumsOverlap(SupportersOf(u, g, r + 1), SupportersOf(u, h, r + 1), n);
  }

  lemma VotersOfBoth(votes: seq<Vote>, more: seq<Vote>, c: CertHash)
    ensures Voters(votes, c) <= Voters(votes + more, c) && Voters(more, c) <= Voters(votes + more, c)
  {
    assert forall y :: y in votes + more <==> y in votes || y in more;
  }

  /** Validator leg: two hashes that each met the stake quorum, even on different
      vote lists, share double voters holding more than a third of all stake. */
  lemma ConflictingQuorumsCostStake(w: Weights, g: CertHash, h: CertHash, votes: seq<Vote>, more: seq<Vote>)
    requires ValidatorQuorum(w, g, votes) && ValidatorQuorum(w, h, more)
    ensures 3 * DoubleVoteStake(w, g, h, votes + more) > StakeOf(w, w.Keys)
  {
    var a, b := Voters(votes + more, g), Voters(votes + more, h);
    VotersOfBoth(votes, more, g);
    VotersOfBoth(votes, more, h);
    StakeMonotone(w, Voters(votes, g), a);
    StakeMonotone(w, Voters(more, h), b);
    StakeUnion(w, a, b);
    StakeBounded(w, a + b);
  }

  /** The measured set of a direct conflict holds at least a third of the committee
      who did sign two different certificates. */
  lemma ConflictCatchesSigners(v: Dag, w: Dag, u: Dag, n: nat, r: Round, g: CertHash, h: CertHash)
    requires n > 0 && Grows(v, u) && Grows(w, u) && AuthorsInCommittee(u, n) && g != h
    requires DirectDecision(v, r, n) == Direct(g) && DirectDecision(w, r, n) == Direct(h)
    ensures |AuthorityEquivocators(u, g, h, r + 1) * SignedTwice(u, r + 1)| >= (n + 2) / 3
  {
    var guilty := AuthorityEquivocators(u, g, h, r + 1) * SignedTwice(u, r + 1);
    EquivocatorsAreSharedSupporters(u, g, h, r + 1);
    SupportGrows(v, u, g, r + 1);
    SupportGrows(w, u, h, r + 1);
    BothSupportIsLarge(v, w, u, n, r, g, h);
    BothSupportSignedTwice(v, w, u, n, r, g, h);
    assert BothSupport(v, w, r, g, h) <= guilty;
    SubsetSize(BothSupport(v, w, r, g, h), guilty);
  }

  /** Commits by whichever rule: conflicting hashes mean the leader signed twice. */
  lemma ConflictingLeaderSignedTwice(v: Dag, w: Dag, u: Dag, n: nat, r: Round)
    requires n > 0 && Grows(v, u) && Grows(w, u)
    requires Decision(v, r, n).Direct? && Decision(w, r, n).Direct? && Decision(v, r, n) != Decision(w, r, n)
    ensures Leader(r, n) in SignedTwice(u, r)
  {
    DirectIsLeaderCert(v, r, n);
    DirectIsLeaderCert(w, r, n);
    var g, h := Decision(v, r, n).hash, Decision(w, r, n).hash;
    assert u[g] == v[g] && u[h] == w[h] && g != h;
  }

  /** Theorem 2: two conflicting joint commits, by whichever commit rules, need
      corruption in both rings.  The slot's leader signed twice and double voters
      hold more than a third of the stake; and if both commits are direct, at
      least a third of the committee signed twice at the next round and is in the
      measured set. */
  lemma JointConflictNeedsBothRings(v: Dag, d: Dag, u: Dag, n: nat, r: Round, g: CertHash, h: CertHash,
                                    w: Weights, votes: seq<Vote>, more: seq<Vote>)
    requires n > 0 && Grows(v, u) && Grows(d, u) && AuthorsInCommittee(u, n) && g != h
    requires Decision(v, r, n) == Direct(g) && ValidatorQuorum(w, g, votes)
    requires Decision(d, r, n) == Direct(h) && ValidatorQuorum(w, h, more)
    ensures Leader(r, n) in SignedTwice(u, r)
    ensures 3 * DoubleVoteStake(w, g, h, votes + more) > StakeOf(w, w.Keys)
    ensures DirectDecision(v, r, n).Direct? && DirectDecision(d, r, n).Direct? ==>
              |AuthorityEquivocators(u, g, h, r + 1) * SignedTwice(u, r + 1)| >= (n + 2) / 3
  {
    ConflictingLeaderSignedTwice(v, d, u, n, r);
    ConflictingQuorumsCostStake(w, g, h, votes, more);
    if DirectDecision(v, r, n).Direct? && DirectDecision(d, r, n).Direct? {
      ConflictCatchesSigners(v, d, u, n, r, g, h);
    }
  }
}
