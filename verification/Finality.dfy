/** Finality: what later certificates can and cannot do to decisions already
    taken, and what the finalized sequence looks like. */
module Finality {
  import opened Sets
  import opened Certs
  import opened Causality
  import opened DagStores
  import opened Commit

  ghost predicate Grows(d: Dag, e: Dag)
  {
    WellFormed(d) && WellFormed(e) && Extends(d, e)
  }

  /** No author has two certificates at one round. */
  ghost predicate NoEquivocation(d: Dag)
  {
    forall h, g | h in d && g in d && d[h].round == d[g].round && d[h].author == d[g].author :: h == g
  }

  /** Every leader certificate looked up in `d` is still the one looked up in `e`. */
  ghost predicate LeadersStable(d: Dag, e: Dag, n: nat)
    requires n > 0
  {
    forall r: Round | LeaderCert(d, r, n).Some? :: LeaderCert(e, r, n) == LeaderCert(d, r, n)
  }

  function Rank(s: LeaderStatus): nat
  {
    match s case Undecided => 0 case Skip => 1 case Direct(_) => 2
  }

  lemma NoEquivocationKeepsLeaders(d: Dag, e: Dag, n: nat)
    requires n > 0 && Grows(d, e) && NoEquivocation(e)
    ensures LeadersStable(d, e, n)
  {
    forall r: Round | LeaderCert(d, r, n).Some? ensures LeaderCert(e, r, n) == LeaderCert(d, r, n) {
      var h := LeaderCert(d, r, n).value;
      assert h in SlotSet(e, r, Leader(r, n));
      assert Min(SlotSet(e, r, Leader(r, n))) == h;
    }
  }

  lemma SupportGrows(d: Dag, e: Dag, target: CertHash, r: Round)
    requires Extends(d, e)
    ensures SupportersOf(d, target, r) <= SupportersOf(e, target, r)
    ensures |SupportersOf(d, target, r)| <= |SupportersOf(e, target, r)|
  {
    forall a | a in SupportersOf(d, target, r) ensures a in SupportersOf(e, target, r) {
      var h :| h in d && d[h].round == r && target in d[h].parents && d[h].author == a;
      assert e[h] == d[h];
    }
    SubsetSize(SupportersOf(d, target, r), SupportersOf(e, target, r));
  }

  /** No certificate of the same author and round has a smaller hash, so `h` is
      what a lookup of its slot finds. */
  ghost predicate StaysLeast(e: Dag, h: CertHash)
    requires h in e
  {
    forall g | g in e && e[g].round == e[h].round && e[g].author == e[h].author :: h <= g
  }

  lemma LeastIsLookup(e: Dag, r: Round, n: nat, h: CertHash)
    requires n > 0 && h in e && e[h].round == r && e[h].author == Leader(r, n)
    ensures LeaderCert(e, r, n) == Some(h) <==> StaysLeast(e, h)
  {
    var slot := SlotSet(e, r, Leader(r, n));
    assert h in slot;
    assert LeaderCert(e, r, n) == Some(Min(slot));
    assert forall g :: g in slot <==> g in e && e[g].round == r && e[g].author == Leader(r, n);
  }

  /** A direct commit survives an extension exactly when the leader's slot did
      not gain a certificate with a smaller hash. */
  lemma DirectCommitSurvivesIff(d: Dag, e: Dag, r: Round, n: nat)
    requires n > 0 && Grows(d, e) && DirectDecision(d, r, n).Direct?
    ensures var h := DirectDecision(d, r, n).hash;
            h in e && (DirectDecision(e, r, n) == Direct(h) <==> StaysLeast(e, h))
  {
    var h := DirectDecision(d, r, n).hash;
    DirectDecisionInDag(d, r, n);
    SupportGrows(d, e, h, r + 1);
    LeastIsLookup(e, r, n, h);
  }

  lemma AnchorsPersist(d: Dag, e: Dag, r: Round, a: Round, n: nat)
    requires n > 0 && Grows(d, e) && LeadersStable(d, e, n) && IsAnchor(d, r, a, n)
    ensures IsAnchor(e, r, a, n) && DirectDecision(e, a, n) == DirectDecision(d, a, n)
    ensures Inherits(d, r, a, n) ==> Inherits(e, r, a, n)
  {
    var h := DirectDecision(d, a, n).hash;
    SupportGrows(d, e, h, a + 1);
    DirectDecisionInDag(d, a, n);
    if LeaderCert(d, r, n).Some? {
      ReachesStable(d, e, h, LeaderCert(d, r, n).value);
    }
  }

  lemma AnchorMeansDecided(d: Dag, r: Round, a: Round, n: nat)
    requires n > 0 && WellFormed(d) && IsAnchor(d, r, a, n)
    ensures Rank(Decision(d, r, n)) >= 1
  {
  }

  lemma CommitPersists(d: Dag, e: Dag, r: Round, n: nat)
    requires n > 0 && Grows(d, e) && LeadersStable(d, e, n) && Decision(d, r, n).Direct?
    ensures Decision(e, r, n) == Decision(d, r, n)
  {
    DirectIsLeaderCert(d, r, n);
    if DirectDecision(d, r, n).Direct? {
      SupportGrows(d, e, DirectDecision(d, r, n).hash, r + 1);
    } else {
      var a: Round :| IsAnchor(d, r, a, n) && Inherits(d, r, a, n);
      AnchorsPersist(d, e, r, a, n);
      InheritedDecides(e, r, a, n);
    }
  }

  /** Decisions only climb: Undecided, Skip, Direct; and a committed hash stays
      the committed hash, however it was reached. */
  lemma DecisionsClimb(d: Dag, e: Dag, r: Round, n: nat)
    requires n > 0 && Grows(d, e) && LeadersStable(d, e, n)
    ensures Rank(Decision(d, r, n)) <= Rank(Decision(e, r, n))
    ensures Decision(d, r, n).Direct? ==> Decision(e, r, n) == Decision(d, r, n)
  {
    if Decision(d, r, n).Direct? {
      CommitPersists(d, e, r, n);
    } else if Decision(d, r, n).Skip? {
      var a: Round :| IsAnchor(d, r, a, n);
      AnchorsPersist(d, e, r, a, n);
      AnchorMeansDecided(e, r, a, n);
    }
  }

  /** Over a whole run of insertions whose result shows no equivocation, every
      intermediate decision is final in the same sense. */
  lemma RunDecisionsClimb(H: Certificate -> CertHash, d: Dag, cs: seq<Certificate>, k: nat, r: Round, n: nat)
    requires n > 0 && k <= |cs| && WellFormed(d) && KeyedBy(H, d)
    requires NoEquivocation(Replay(H, d, cs))
    ensures WellFormed(Replay(H, d, cs[..k])) && WellFormed(Replay(H, d, cs))
    ensures var early, late := Decision(Replay(H, d, cs[..k]), r, n), Decision(Replay(H, d, cs), r, n);
            Rank(early) <= Rank(late) && (early.Direct? ==> late == early)
  {
    var early, late := Replay(H, d, cs[..k]), Replay(H, d, cs);
    ReplayInvariant(H, d, cs[..k]);
    ReplayInvariant(H, d, cs);
    ReplaySplits(H, d, cs, k);
    ReplayInvariant(H, early, cs[k..]);
    NoEquivocationKeepsLeaders(early, late, n);
    DecisionsClimb(early, late, r, n);
  }

  lemma {:induction false} ReplaySplits(H: Certificate -> CertHash, d: Dag, cs: seq<Certificate>, k: nat)
    requires k <= |cs|
    ensures Replay(H, Replay(H, d, cs[..k]), cs[k..]) == Replay(H, d, cs)
    decreases |cs|
  {
    if k < |cs| {
      var init := cs[..|cs| - 1];
      ReplaySplits(H, d, init, k);
      assert init[..k] == cs[..k];
      assert cs[k..][..|cs[k..]| - 1] == init[k..];
    } else {
      assert cs[..k] == cs;
    }
  }

  // ----- What an extension does to one decision, exactly -----

  /** An anchor that `d` does not have: its round was not directly decided there,
      or was decided to another certificate. */
  ghost predicate NewAnchor(d: Dag, e: Dag, r: Round, a: Round, n: nat)
    requires n > 0
  {
    IsAnchor(e, r, a, n) && DirectDecision(d, a, n) != DirectDecision(e, a, n)
  }

  /** Some anchor of `d` whose leader slot gained nothing smaller has `h` among
      its ancestors. */
  ghost predicate OldAnchorHolds(d: Dag, e: Dag, r: Round, n: nat, h: CertHash)
    requires n > 0 && Grows(d, e)
  {
    exists a: Round :: IsAnchor(d, r, a, n) && AnchorHolds(d, e, DirectDecision(d, a, n).hash, h)
  }

  ghost predicate AnchorHolds(d: Dag, e: Dag, c: CertHash, h: CertHash)
    requires Grows(d, e)
  {
    c in d && Reaches(d, c, h) && StaysLeast(e, c)
  }

  ghost predicate NewAnchorReaches(d: Dag, e: Dag, r: Round, n: nat, h: CertHash)
    requires n > 0 && WellFormed(e)
  {
    exists a: Round :: NewAnchor(d, e, r, a, n) && DirectDecision(e, a, n).hash in e
                       && Reaches(e, DirectDecision(e, a, n).hash, h)
  }

  ghost predicate HasQuorum(e: Dag, r: Round, n: nat, h: CertHash)
  {
    |SupportersOf(e, h, r + 1)| >= QuorumThreshold(n)
  }

  /** An anchor of the extension that reaches `h` is new, or it is an anchor of
      `d` that reaches `h` already. */
  lemma AnchorOldOrNew(d: Dag, e: Dag, r: Round, n: nat, h: CertHash, a: Round)
    requires n > 0 && Grows(d, e) && IsAnchor(e, r, a, n)
    requires DirectDecision(e, a, n).hash in e && Reaches(e, DirectDecision(e, a, n).hash, h)
    ensures OldAnchorHolds(d, e, r, n, h) || NewAnchorReaches(d, e, r, n, h)
  {
    if DirectDecision(d, a, n) == DirectDecision(e, a, n) {
      var c := DirectDecision(d, a, n).hash;
      DirectDecisionInDag(d, a, n);
      ReachesStable(d, e, c, h);
      DirectCommitSurvivesIff(d, e, a, n);
      assert IsAnchor(d, r, a, n) && AnchorHolds(d, e, c, h);
    } else {
      assert NewAnchor(d, e, r, a, n);
    }
  }

  /** Either kind of anchor commits a looked-up `h`. */
  lemma AnchorCommits(d: Dag, e: Dag, r: Round, n: nat, h: CertHash)
    requires n > 0 && Grows(d, e) && LeaderCert(e, r, n) == Some(h)
    requires OldAnchorHolds(d, e, r, n, h) || NewAnchorReaches(d, e, r, n, h)
    ensures Decision(e, r, n) == Direct(h)
  {
    if OldAnchorHolds(d, e, r, n, h) {
      var a: Round :| IsAnchor(d, r, a, n) && AnchorHolds(d, e, DirectDecision(d, a, n).hash, h);
      DirectCommitSurvivesIff(d, e, a, n);
      ReachesStable(d, e, DirectDecision(d, a, n).hash, h);
      InheritedDecides(e, r, a, n);
    } else {
      var a: Round :| NewAnchor(d, e, r, a, n) && DirectDecision(e, a, n).hash in e
                      && Reaches(e, DirectDecision(e, a, n).hash, h);
      InheritedDecides(e, r, a, n);
    }
  }

  /** A commit, by whichever rule, survives an extension exactly when its hash
      stays least in its slot and one of three things holds: it has a quorum, one
      of its old anchors keeps its own slot, or a new anchor reaches it. */
  lemma CommitSurvivesIff(d: Dag, e: Dag, r: Round, n: nat)
    requires n > 0 && Grows(d, e) && Decision(d, r, n).Direct?
    ensures var h := Decision(d, r, n).hash;
            h in e && (Decision(e, r, n) == Direct(h) <==>
              && StaysLeast(e, h)
              && (HasQuorum(e, r, n, h) || OldAnchorHolds(d, e, r, n, h) || NewAnchorReaches(d, e, r, n, h)))
  {
    var h := Decision(d, r, n).hash;
    DirectIsLeaderCert(d, r, n);
    LeastIsLookup(e, r, n, h);
    if LeaderCert(e, r, n) == Some(h) {
      if OldAnchorHolds(d, e, r, n, h) || NewAnchorReaches(d, e, r, n, h) {
        AnchorCommits(d, e, r, n, h);
      } else if Decision(e, r, n) == Direct(h) && !HasQuorum(e, r, n, h) {
        var a: Round :| IsAnchor(e, r, a, n) && Inherits(e, r, a, n);
        AnchorOldOrNew(d, e, r, n, h, a);
      }
    } else if Decision(e, r, n).Direct? {
      DirectIsLeaderCert(e, r, n);
    }
  }

  /** So two slots decide: the commit's own and that of one anchor it rests on. */
  lemma CommitSurvivesLocally(d: Dag, e: Dag, r: Round, n: nat)
    requires n > 0 && Grows(d, e) && Decision(d, r, n).Direct?
    ensures var h := Decision(d, r, n).hash;
            h in e && (StaysLeast(e, h) && (DirectDecision(d, r, n).Direct? || OldAnchorHolds(d, e, r, n, h))
                       ==> Decision(e, r, n) == Direct(h))
  {
    CommitSurvivesIff(d, e, r, n);
    SupportGrows(d, e, Decision(d, r, n).hash, r + 1);
  }

  /** The anchor of round `a` in `d` is still the anchor of that round. */
  ghost predicate AnchorKept(d: Dag, e: Dag, r: Round, a: Round, n: nat)
    requires n > 0 && Grows(d, e)
  {
    IsAnchor(d, r, a, n) && DirectDecision(d, a, n).hash in e && StaysLeast(e, DirectDecision(d, a, n).hash)
  }

  /** Some anchor for round `r` is left: one of `d` that kept its slot, or a new one. */
  ghost predicate AnchorLeft(d: Dag, e: Dag, r: Round, n: nat)
    requires n > 0 && Grows(d, e)
  {
    exists a: Round :: AnchorKept(d, e, r, a, n) || NewAnchor(d, e, r, a, n)
  }

  lemma KeptOrNew(d: Dag, e: Dag, r: Round, a: Round, n: nat)
    requires n > 0 && Grows(d, e)
    ensures IsAnchor(e, r, a, n) <==> AnchorKept(d, e, r, a, n) || NewAnchor(d, e, r, a, n)
  {
    if IsAnchor(d, r, a, n) {
      DirectCommitSurvivesIff(d, e, a, n);
    }
  }

  lemma AnchorLeftIff(d: Dag, e: Dag, r: Round, n: nat)
    requires n > 0 && Grows(d, e)
    ensures AnchorLeft(d, e, r, n) <==> exists a: Round :: IsAnchor(e, r, a, n)
  {
    if a: Round :| IsAnchor(e, r, a, n) {
      KeptOrNew(d, e, r, a, n);
    } else if a: Round :| AnchorKept(d, e, r, a, n) || NewAnchor(d, e, r, a, n) {
      KeptOrNew(d, e, r, a, n);
    }
  }

  /** An anchor of `d` never changes its verdict on a slot `d` skips: what it
      reaches is in `d`, and there it does not reach the leader certificate. */
  lemma OldAnchorsKeepSkipping(d: Dag, e: Dag, r: Round, n: nat, h: CertHash)
    requires n > 0 && Grows(d, e) && Decision(d, r, n) == Skip && LeaderCert(e, r, n) == Some(h)
    ensures !OldAnchorHolds(d, e, r, n, h)
  {
    if a: Round :| IsAnchor(d, r, a, n) && AnchorHolds(d, e, DirectDecision(d, a, n).hash, h) {
      ReachesIsOlder(d, DirectDecision(d, a, n).hash, h);
      assert h in SlotSet(e, r, Leader(r, n));
      LeastIsLookup(e, r, n, h);
      LeastIsLookup(d, r, n, h);
      assert Inherits(d, r, a, n);
    }
  }

  /** A skipped slot stays skipped exactly when some anchor is left, its leader
      certificate has no quorum and no new anchor reaches it.  What the old
      anchors reach plays no part. */
  lemma SkipSurvivesIff(d: Dag, e: Dag, r: Round, n: nat)
    requires n > 0 && Grows(d, e) && Decision(d, r, n) == Skip
    ensures Decision(e, r, n) == Skip <==>
              && AnchorLeft(d, e, r, n)
              && (LeaderCert(e, r, n).Some? ==>
                    && !HasQuorum(e, r, n, LeaderCert(e, r, n).value)
                    && !NewAnchorReaches(d, e, r, n, LeaderCert(e, r, n).value))
  {
    AnchorLeftIff(d, e, r, n);
    if LeaderCert(e, r, n).Some? {
      var h := LeaderCert(e, r, n).value;
      OldAnchorsKeepSkipping(d, e, r, n, h);
      if NewAnchorReaches(d, e, r, n, h) {
        AnchorCommits(d, e, r, n, h);
      } else if a: Round :| IsAnchor(e, r, a, n) && Inherits(e, r, a, n) {
        AnchorOldOrNew(d, e, r, n, h, a);
      }
    }
  }

  /** With stable leader lookups a skipped slot never reopens. */
  lemma SkipNeverReopens(d: Dag, e: Dag, r: Round, n: nat)
    requires n > 0 && Grows(d, e) && LeadersStable(d, e, n) && Decision(d, r, n) == Skip
    ensures Decision(e, r, n) != Undecided && AnchorLeft(d, e, r, n)
  {
    DecisionsClimb(d, e, r, n);
    var a: Round :| IsAnchor(d, r, a, n);
    AnchorsPersist(d, e, r, a, n);
    AnchorLeftIff(d, e, r, n);
  }

  /** No certificate that only the extension has reaches `h`. */
  ghost predicate NothingNewReaches(d: Dag, e: Dag, h: CertHash)
    requires WellFormed(e)
  {
    forall g | g in e && g !in d :: !Reaches(e, g, h)
  }

  /** If the extension brings nothing that reaches the slot's leader certificate,
      a skipped slot stays skipped. */
  lemma SkipStaysWhenUncited(d: Dag, e: Dag, r: Round, n: nat)
    requires n > 0 && Grows(d, e) && Decision(d, r, n) == Skip && AnchorLeft(d, e, r, n)
    requires LeaderCert(e, r, n).Some? ==> NothingNewReaches(d, e, LeaderCert(e, r, n).value)
    ensures Decision(e, r, n) == Skip
  {
    SkipSurvivesIff(d, e, r, n);
    if LeaderCert(e, r, n).Some? {
      var h := LeaderCert(e, r, n).value;
      assert h in SlotSet(e, r, Leader(r, n));
      assert Reaches(e, h, h);
      LookupOnlyGetsSmaller(d, e, r, n, h);
      SupportComesFromOld(d, e, r + 1, h);
      if a: Round :| NewAnchor(d, e, r, a, n) && DirectDecision(e, a, n).hash in e
                     && Reaches(e, DirectDecision(e, a, n).hash, h) {
        UncitedAnchorIsOld(d, e, r, n, h, a);
      }
    }
  }

  /** A lookup of the extension that `d` already has was the lookup of `d`. */
  lemma LookupOnlyGetsSmaller(d: Dag, e: Dag, r: Round, n: nat, h: CertHash)
    requires n > 0 && Grows(d, e) && LeaderCert(e, r, n) == Some(h) && h in d
    ensures LeaderCert(d, r, n) == Some(h)
  {
    assert h in SlotSet(e, r, Leader(r, n));
    LeastIsLookup(e, r, n, h);
    LeastIsLookup(d, r, n, h);
  }

  lemma SupportComesFromOld(d: Dag, e: Dag, k: Round, h: CertHash)
    requires Grows(d, e) && h in e && NothingNewReaches(d, e, h)
    ensures SupportersOf(e, h, k) == SupportersOf(d, h, k)
  {
    assert Reaches(e, h, h);
    SupportGrows(d, e, h, k);
    forall x | x in SupportersOf(e, h, k) ensures x in SupportersOf(d, h, k) {
      var s :| s in e && e[s].round == k && h in e[s].parents && e[s].author == x;
      assert Reaches(e, s, h);
    }
  }

  /** An anchor that reaches such an `h` is in `d` with all its support. */
  lemma UncitedAnchorIsOld(d: Dag, e: Dag, r: Round, n: nat, h: CertHash, a: Round)
    requires n > 0 && Grows(d, e) && h in e && NothingNewReaches(d, e, h) && IsAnchor(e, r, a, n)
    requires DirectDecision(e, a, n).hash in e && Reaches(e, DirectDecision(e, a, n).hash, h)
    ensures DirectDecision(d, a, n) == DirectDecision(e, a, n)
  {
    var c := DirectDecision(e, a, n).hash;
    LookupOnlyGetsSmaller(d, e, a, n, c);
    forall g | g in e && g !in d ensures !Reaches(e, g, c) {
      if Reaches(e, g, c) { ReachesTransitive(e, g, c, h); }
    }
    SupportComesFromOld(d, e, a + 1, c);
  }
}
