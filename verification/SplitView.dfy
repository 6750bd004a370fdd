/** Why commits by different rules agree only where the leader lookups do.  In a
    committee of four the leader of round 0 signs two certificates (hashes 1 and
    2); no one else misbehaves and every certificate cites a quorum.  One view
    commits hash 2 directly, a larger view commits hash 1 through a later anchor,
    and nobody appears in the round-1 equivocator set. */
module SplitView {
  import opened Sets
  import opened Certs
  import opened Causality
  import opened Commit
  import opened Finality
  import opened Counterexamples
  import opened Agreement
  import opened JointQuorum

  /** Hashes 1 to 4 belong to round 0; above that the first digit is the round
      and the last digit the author. */
  function Cert(h: CertHash): Certificate
  {
    if h < 10 then Certificate(if h <= 2 then 0 else h - 2, 0, [], h)
    else if h < 20 then Certificate(h - 10, 1, if h == 13 then [1, 3, 4] else [2, 3, 4], 0)
    else if h < 30 then Certificate(h - 20, 2, [10, 11, 12, 13], 0)
    else Certificate(h - 30, 3, [20, 21, 22], 0)
  }

  ghost function Small(): Dag
  {
    map h | h in {2, 3, 4, 10, 11, 12} :: Cert(h)
  }

  ghost function Large(): Dag
  {
    map h | h in {1, 2, 3, 4, 10, 11, 12, 13, 20, 21, 22, 30, 31, 32} :: Cert(h)
  }

  lemma ParentsAreThere(h: CertHash, p: CertHash)
    requires h in Large() && p in Large()[h].parents
    ensures p in Large() && Large()[p].round + 1 == Large()[h].round
    ensures h in Small() ==> p in Small()
  {
    assert h >= 10;
    if h < 20 {
      assert p in {1, 2, 3, 4};
    } else if h < 30 {
      assert p in {10, 11, 12, 13};
    } else {
      assert p in {20, 21, 22};
    }
  }

  lemma LargeWellFormed()
    ensures WellFormed(Large())
  {
    var d := Large();
    forall h, p | h in d && p in d[h].parents ensures p in d && d[p].round < d[h].round {
      ParentsAreThere(h, p);
    }
  }

  lemma SmallInLarge(h: CertHash)
    requires h in Small()
    ensures h in Large() && Small()[h] == Large()[h]
  {
  }

  lemma SmallWellFormed()
    ensures WellFormed(Small())
  {
    forall h, p | h in Small() && p in Small()[h].parents
      ensures p in Small() && Small()[p].round < Small()[h].round
    {
      SmallInLarge(h);
      ParentsAreThere(h, p);
    }
  }

  lemma BothGrow()
    ensures WellFormed(Small()) && WellFormed(Large()) && Grows(Small(), Large())
  {
    LargeWellFormed();
    SmallWellFormed();
    forall h | h in Small() ensures h in Large() && Small()[h] == Large()[h] { SmallInLarge(h); }
  }

  lemma SmallCommitsTwo()
    ensures DirectDecision(Small(), 0, 4) == Direct(2)
  {
    var d := Small();
    assert 2 in SlotSet(d, 0, 0);
    assert forall h | h in SlotSet(d, 0, 0) :: h == 2;
    assert LeaderCert(d, 0, 4) == Some(2);
    Supported(d, 2, 1, 10, 11, 12);
  }

  lemma LargeAnchors()
    ensures DirectDecision(Large(), 2, 4) == Direct(22)
  {
    var e := Large();
    assert 22 in SlotSet(e, 2, 2);
    assert forall h | h in SlotSet(e, 2, 2) :: h == 22;
    assert LeaderCert(e, 2, 4) == Some(22);
    Supported(e, 22, 3, 30, 31, 32);
  }

  lemma LargeReaches()
    ensures WellFormed(Large()) && Reaches(Large(), 22, 1)
  {
    var e := Large();
    BothGrow();
    assert Reaches(e, 1, 1);
    assert 1 in e[13].parents;
    assert Reaches(e, 13, 1);
    assert 13 in e[22].parents;
  }

  lemma LargeLooksUpOne()
    ensures LeaderCert(Large(), 0, 4) == Some(1)
  {
    var e := Large();
    assert 1 in SlotSet(e, 0, 0);
    assert forall h | h in SlotSet(e, 0, 0) :: h >= 1;
  }

  lemma LargeCommitsOne()
    ensures WellFormed(Large()) && Decision(Large(), 0, 4) == Direct(1)
  {
    var e := Large();
    LargeAnchors();
    LargeReaches();
    LargeLooksUpOne();
    assert IsAnchor(e, 0, 2, 4) && Inherits(e, 0, 2, 4);
    InheritedDecides(e, 0, 2, 4);
  }

  lemma TwinsBelongToZero(g: CertHash, h: CertHash)
    requires g in Large() && h in Large() && g != h
    requires Large()[g].round == Large()[h].round && Large()[g].author == Large()[h].author
    ensures Large()[h].author == 0
  {
  }

  lemma OnlyLeaderEquivocates()
    ensures Equivocators(Large()) == {0}
    ensures !OneLeaderCert(Large(), 0, 4)
  {
    var e := Large();
    assert 1 in SlotSet(e, 0, 0) && 2 in SlotSet(e, 0, 0);
    assert e[1].author == 0 && e[2].author == 0;
    assert 0 in Equivocators(e);
    assert Leader(0, 4) == 0;
    forall h, g | h in e && g in e && g != h && e[g].round == e[h].round && e[g].author == e[h].author
      ensures e[h].author == 0
    {
      TwinsBelongToZero(g, h);
    }
    assert forall a | a in Equivocators(e) :: a == 0;
  }

  lemma CitesQuorum(h: CertHash)
    requires WellFormed(Large()) && h in Large() && Large()[h].round > 0
    ensures |CitedAuthors(Large(), h)| >= 3
  {
    var (a, b, c) := if h == 13 then (1, 3, 4) else if h < 20 then (2, 3, 4)
                     else if h < 30 then (10, 11, 12) else (20, 21, 22);
    assert a in Cert(h).parents && b in Cert(h).parents && c in Cert(h).parents;
    Cites(h, a, 0);
    Cites(h, b, 1);
    Cites(h, c, 2);
    ThreeDistinct(CitedAuthors(Large(), h), 0, 1, 2);
  }

  lemma Cites(h: CertHash, p: CertHash, author: AuthorityId)
    requires WellFormed(Large()) && h in Large() && p in Large()[h].parents && Cert(p).author == author
    ensures author in CitedAuthors(Large(), h)
  {
    ParentsAreThere(h, p);
  }

  lemma LargeCoversQuorums()
    ensures WellFormed(Large()) && ParentsCoverQuorum(Large(), 4)
  {
    BothGrow();
    forall h | h in Large() && Large()[h].round > 0
      ensures |CitedAuthors(Large(), h)| >= QuorumThreshold(4)
    {
      CitesQuorum(h);
    }
  }

  lemma AuthorsBelowFour(h: CertHash)
    requires h in Large()
    ensures Large()[h].author < 4
  {
  }

  lemma OneEquivocator()
    ensures |Equivocators(Large())| == 1
  {
    OnlyLeaderEquivocates();
    assert |{0}| == 1;
  }

  lemma KnownAuthors()
    ensures AuthorsInCommittee(Large(), 4)
  {
    forall h | h in Large() ensures Large()[h].author < 4 { AuthorsBelowFour(h); }
  }

  lemma LargeIsWithinFaultBound()
    ensures WithinFaultBound(Large(), 4)
  {
    LargeCoversQuorums();
    OneEquivocator();
    KnownAuthors();
  }

  lemma SupportersOfOne(a: AuthorityId)
    requires a in SupportersOf(Large(), 1, 1)
    ensures a == 3
  {
    var h :| h in Large() && Large()[h].round == 1 && 1 in Large()[h].parents && Large()[h].author == a;
    assert h == 13;
  }

  lemma SupportersOfTwo(a: AuthorityId)
    requires a in SupportersOf(Large(), 2, 1)
    ensures a != 3
  {
    var h :| h in Large() && Large()[h].round == 1 && 2 in Large()[h].parents && Large()[h].author == a;
    assert h != 13;
  }

  lemma NobodySupportsBoth()
    ensures AuthorityEquivocators(Large(), 1, 2, 1) == {}
  {
    EquivocatorsAreSharedSupporters(Large(), 1, 2, 1);
    var both := SupportersOf(Large(), 1, 1) * SupportersOf(Large(), 2, 1);
    if both != {} {
      var a :| a in both;
      SupportersOfOne(a);
      SupportersOfTwo(a);
    }
  }

  /** The fault bound alone does not give agreement. */
  lemma LeaderEquivocationSplitsViews()
    ensures Grows(Small(), Large()) && BuiltFrom(Small(), Large())
    ensures WithinFaultBound(Large(), 4) && |Equivocators(Large())| == 1
    ensures DirectDecision(Small(), 0, 4) == Direct(2) && Decision(Large(), 0, 4) == Direct(1)
    ensures AuthorityEquivocators(Large(), 1, 2, 1) == {}
  {
    BothGrow();
    SmallCommitsTwo();
    LargeCommitsOne();
    LargeIsWithinFaultBound();
    OneEquivocator();
    NobodySupportsBoth();
    LargeDistinct();
    BuiltByInsertions(Small(), Large());
  }

  lemma LargeDistinct()
    ensures Distinct(Large())
  {
    forall g, h | g in Large() && h in Large() && Large()[g] == Large()[h] ensures g == h {
      SameCertSameHash(g, h);
    }
  }

  lemma SameCertSameHash(g: CertHash, h: CertHash)
    requires g in Large() && h in Large() && Cert(g) == Cert(h)
    ensures g == h
  {
  }
}
