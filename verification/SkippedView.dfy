/** Honest nodes that finalize different orders.  In a committee of four nobody
    signs twice and every certificate cites a quorum.  Hash 1, the leader
    certificate of round 0, is cited by hash 13 alone, and of the certificates
    decided directly only hash 33, the leader of round 3, carries it.  A node that
    has decided round 3 directly commits slot 0; one that lacks it skips the slot
    and finalizes slot 1 first, whether its last direct round lies below 3 or is 4. */
module SkippedView {
  import opened Sets
  import opened Certs
  import opened Causality
  import opened Commit
  import opened Finality
  import opened FinalizedOrder
  import opened Counterexamples
  import opened Agreement

  /** Hashes 1 to 4 belong to round 0; above that the first digit is the round
      and the last digit the author. */
  function Cert(h: CertHash): Certificate
  {
    if h < 10 then Certificate(if h == 0 then 0 else h - 1, 0, [], 0)
    else Certificate(h % 10, h / 10, Cited(h), 0)
  }

  function Cited(h: CertHash): seq<CertHash>
  {
    if h < 20 then (if h == 13 then [1, 2, 3] else [2, 3, 4])
    else if h < 30 then (if h == 23 then [11, 12, 13] else [10, 11, 12])
    else if h < 40 then (if h == 33 then [21, 22, 23] else [20, 21, 22])
    else if h < 50 then (if h == 40 then [30, 31, 32] else [31, 32, 33])
    else [40, 41, 42]
  }

  /** What each node holds: everything; no certificate that carries hash 1 and
      nothing from round 4 on; or everything but hash 43. */
  datatype Node = Complete | Behind | Gapped

  predicate Holds(x: Node, h: CertHash)
  {
    && (1 <= h <= 4 || 10 <= h <= 13 || 20 <= h <= 23 || 30 <= h <= 33 || 40 <= h <= 43 || 50 <= h <= 52)
    && match x
       case Complete => true
       case Behind => h <= 32 && h != 13 && h != 23
       case Gapped => h != 43
  }

  ghost function View(x: Node): Dag
  {
    map h: CertHash | h < 53 && Holds(x, h) :: Cert(h)
  }

  lemma CitedAreHeld(x: Node, h: CertHash, p: CertHash)
    requires Holds(x, h) && p in Cert(h).parents
    ensures Holds(x, p) && Cert(p).round + 1 == Cert(h).round
  {
  }

  lemma ViewWellFormed(x: Node)
    ensures WellFormed(View(x))
  {
    forall h, p | h in View(x) && p in View(x)[h].parents ensures p in View(x) && View(x)[p].round < View(x)[h].round {
      CitedAreHeld(x, h, p);
    }
  }

  lemma ViewGrows(x: Node)
    ensures WellFormed(View(x)) && WellFormed(View(Complete)) && Grows(View(x), View(Complete))
  {
    ViewWellFormed(x);
    ViewWellFormed(Complete);
  }

  lemma NobodySignsTwice(x: Node)
    ensures NoEquivocation(View(x)) && Distinct(View(x))
  {
  }

  // ----- The fault bound -----

  lemma CitesThree(h: CertHash, a: CertHash, b: CertHash, c: CertHash)
    requires Holds(Complete, h) && WellFormed(View(Complete))
    requires Cert(h).parents == [a, b, c] && Cert(a).author < Cert(b).author < Cert(c).author
    ensures |CitedAuthors(View(Complete), h)| >= 3
  {
    assert a in Cert(h).parents && b in Cert(h).parents && c in Cert(h).parents;
    CitedAreHeld(Complete, h, a);
    CitedAreHeld(Complete, h, b);
    CitedAreHeld(Complete, h, c);
    ThreeDistinct(CitedAuthors(View(Complete), h), Cert(a).author, Cert(b).author, Cert(c).author);
  }

  lemma EveryoneCitesQuorum()
    ensures WellFormed(View(Complete)) && ParentsCoverQuorum(View(Complete), 4)
  {
    ViewWellFormed(Complete);
    forall h | h in View(Complete) && View(Complete)[h].round > 0
      ensures |CitedAuthors(View(Complete), h)| >= QuorumThreshold(4)
    {
      CitesThree(h, Cited(h)[0], Cited(h)[1], Cited(h)[2]);
    }
  }

  lemma NoEquivocators(d: Dag)
    requires NoEquivocation(d)
    ensures |Equivocators(d)| == 0
  {
    assert Equivocators(d) == {};
  }

  lemma KnownAuthors()
    ensures AuthorsInCommittee(View(Complete), 4)
  {
  }

  lemma BoundHolds(d: Dag)
    requires WellFormed(d) && AuthorsInCommittee(d, 4) && ParentsCoverQuorum(d, 4) && NoEquivocation(d)
    ensures WithinFaultBound(d, 4)
  {
    NoEquivocators(d);
  }

  lemma CompleteIsWithinFaultBound()
    ensures WithinFaultBound(View(Complete), 4)
  {
    EveryoneCitesQuorum();
    NobodySignsTwice(Complete);
    KnownAuthors();
    BoundHolds(View(Complete));
  }

  // ----- What is decided directly -----

  /** The only certificate of the leader of round `r`. */
  function LeaderHash(r: Round): CertHash
  {
    if r == 0 then 1 else 10 * r + r % 4
  }

  lemma LeaderIsUnique(x: Node, r: Round, h: CertHash)
    requires h in SlotSet(View(x), r, Leader(r, 4))
    ensures h == LeaderHash(r)
  {
  }

  lemma LooksUp(x: Node, r: Round)
    requires Holds(x, LeaderHash(r)) && r <= 5
    ensures LeaderCert(View(x), r, 4) == Some(LeaderHash(r))
  {
    assert LeaderHash(r) in SlotSet(View(x), r, Leader(r, 4));
    LeaderIsUnique(x, r, Min(SlotSet(View(x), r, Leader(r, 4))));
  }

  lemma DecidedDirectly(x: Node, r: Round, a: CertHash, b: CertHash, c: CertHash)
    requires r <= 5 && Holds(x, LeaderHash(r)) && Holds(x, a) && Holds(x, b) && Holds(x, c)
    requires Cert(a).round == Cert(b).round == Cert(c).round == r + 1
    requires Cert(a).author < Cert(b).author < Cert(c).author
    requires LeaderHash(r) in Cert(a).parents && LeaderHash(r) in Cert(b).parents && LeaderHash(r) in Cert(c).parents
    ensures DirectDecision(View(x), r, 4) == Direct(LeaderHash(r))
  {
    LooksUp(x, r);
    Supported(View(x), LeaderHash(r), r + 1, a, b, c);
  }

  lemma DecidedByAll(x: Node)
    ensures DirectDecision(View(x), 1, 4) == Direct(11) && DirectDecision(View(x), 2, 4) == Direct(22)
  {
    DecidedDirectly(x, 1, 20, 21, 22);
    DecidedDirectly(x, 2, 30, 31, 32);
  }

  lemma DecidedLate()
    ensures DirectDecision(View(Complete), 3, 4) == Direct(33) && DirectDecision(View(Gapped), 4, 4) == Direct(40)
  {
    DecidedDirectly(Complete, 3, 41, 42, 43);
    DecidedDirectly(Gapped, 4, 50, 51, 52);
  }

  lemma AtMostTwo(s: set<AuthorityId>, a: AuthorityId, b: AuthorityId)
    requires forall y | y in s :: y == a || y == b
    ensures |s| < 3
  {
    SubsetSize(s, {a, b});
  }

  /** Hash 1, hash 33 where hash 43 is missing, and the leader of round 5. */
  predicate Lonely(x: Node, h: CertHash)
  {
    h == 1 || (h == 33 && x == Gapped) || h == 51
  }

  lemma SupporterIs(x: Node, h: CertHash, s: CertHash)
    requires Lonely(x, h) && Holds(x, s) && h in Cert(s).parents
    ensures Cert(s).author == (if h == 1 then 3 else 1) || Cert(s).author == (if h == 1 then 3 else 2)
  {
  }

  /** Fewer than three authors support them. */
  lemma Unsupported(x: Node, h: CertHash, k: Round)
    requires Lonely(x, h)
    ensures |SupportersOf(View(x), h, k)| < 3
  {
    var d := View(x);
    var a, b := if h == 1 then 3 else 1, if h == 1 then 3 else 2;
    forall y | y in SupportersOf(d, h, k) ensures y == a || y == b {
      var s :| s in d && d[s].round == k && h in d[s].parents && d[s].author == y;
      SupporterIs(x, h, s);
    }
    AtMostTwo(SupportersOf(d, h, k), a, b);
  }

  /** Where round 3 is not decided directly, the anchors for slot 0 are the leaders
      of rounds 2 and 4. */
  lemma AnchorsLeft(x: Node, a: Round)
    requires x != Complete && a >= 2 && DirectDecision(View(x), a, 4).Direct?
    ensures DirectDecision(View(x), a, 4).hash in {22, 40}
  {
    var d := View(x);
    DirectDecisionInDag(d, a, 4);
    var c := DirectDecision(d, a, 4).hash;
    LeaderIsUnique(x, a, c);
    if c == 33 || c == 51 { Unsupported(x, c, a + 1); }
  }

  // ----- Slot 0 -----

  /** Hash 1 and what cites it, directly or not. */
  predicate CarriesOne(h: CertHash)
  {
    h == 1 || h == 13 || h == 23 || h == 33 || h >= 41
  }

  lemma CitedCarryNothing(h: CertHash, p: CertHash)
    requires Holds(Complete, h) && !CarriesOne(h) && p in Cert(h).parents
    ensures !CarriesOne(p)
  {
  }

  lemma NobodyCarriesOne(x: Node, c: CertHash)
    requires c in {11, 22, 40} && Holds(x, c)
    ensures WellFormed(View(x)) && !Reaches(View(x), c, 1)
  {
    var d := View(x);
    ViewWellFormed(x);
    var s := set h | h in d && !CarriesOne(h);
    forall y, p | y in s && y in d && p in d[y].parents ensures p in s {
      CitedCarryNothing(y, p);
    }
    if Reaches(d, c, 1) { ReachedStaysInside(d, c, 1, s); }
  }

  lemma NotDirect(x: Node)
    ensures DirectDecision(View(x), 0, 4) == Undecided && LeaderCert(View(x), 0, 4) == Some(1)
  {
    LooksUp(x, 0);
    Unsupported(x, 1, 1);
  }

  lemma OthersSkip(x: Node)
    requires x != Complete
    ensures WellFormed(View(x)) && Decision(View(x), 0, 4) == Skip
  {
    var d := View(x);
    ViewWellFormed(x);
    NotDirect(x);
    DecidedByAll(x);
    assert IsAnchor(d, 0, 2, 4);
    forall a: Round | IsAnchor(d, 0, a, 4) ensures !Inherits(d, 0, a, 4) {
      AnchorsLeft(x, a);
      DirectDecisionInDag(d, a, 4);
      NobodyCarriesOne(x, DirectDecision(d, a, 4).hash);
    }
  }

  lemma RoundThreeCarriesOne()
    ensures WellFormed(View(Complete)) && Reaches(View(Complete), 33, 1)
  {
    var d := View(Complete);
    ViewWellFormed(Complete);
    assert Reaches(d, 1, 1);
    assert 1 in d[13].parents;
    assert Reaches(d, 13, 1);
    assert 13 in d[23].parents;
    assert Reaches(d, 23, 1);
    assert 23 in d[33].parents;
  }

  lemma CompleteCommits()
    ensures WellFormed(View(Complete)) && Decision(View(Complete), 0, 4) == Direct(1)
    ensures CommitsThrough(View(Complete), 4, 0, 3)
  {
    NotDirect(Complete);
    DecidedLate();
    RoundThreeCarriesOne();
    InheritedDecides(View(Complete), 0, 3, 4);
  }

  /** None of the others has caught up with round 3. */
  lemma OthersAreBehind(x: Node)
    requires x != Complete
    ensures !CaughtUp(View(x), 4, 3)
  {
    forall b: Round | b == 3 || b >= 5 ensures !DirectDecision(View(x), b, 4).Direct? {
      if DirectDecision(View(x), b, 4).Direct? {
        AnchorsLeft(x, b);
        DirectDecisionInDag(View(x), b, 4);
      }
    }
  }

  // ----- The outputs -----

  /** The output starts inside the history of the first committed slot. */
  lemma OutputHead(d: Dag, n: nat, r: Round, h: CertHash)
    requires n > 0 && WellFormed(d) && Decision(d, r, n) == Direct(h) && h in d
    requires FinalizedBelow(d, n, r) == []
    ensures Finalized(d, n) != [] && Reaches(d, h, Finalized(d, n)[0])
  {
    var next: nat := r + 1;
    var out := WithSlot(d, n, [], r);
    FreshMembers(History(d, h), []);
    AncestorsClosed(d, h);
    assert h in History(d, h);
    assert h in Fresh(History(d, h), []);
    assert out[0] in Fresh(History(d, h), []);
    FinalizedStep(d, n, r, next);
    OutputPrefix(d, n, next);
  }

  lemma OthersStartElsewhere(x: Node)
    requires x != Complete
    ensures WellFormed(View(x)) && Finalized(View(x), 4) != [] && Finalized(View(x), 4)[0] != 1
  {
    var d := View(x);
    OthersSkip(x);
    DecidedByAll(x);
    FinalizedStep(d, 4, 0, 1);
    OpenSlotAddsNothing(d, 4, [], 0);
    OutputHead(d, 4, 1, 11);
    NobodyCarriesOne(x, 11);
  }

  lemma DifferentHeads(s: seq<CertHash>, t: seq<CertHash>)
    requires s != [] && t != [] && s[0] != t[0]
    ensures !Comparable(s, t)
  {
  }

  lemma OutputsDiffer(x: Node)
    requires x != Complete
    ensures WellFormed(View(x)) && WellFormed(View(Complete))
    ensures !Comparable(Finalized(View(x), 4), Finalized(View(Complete), 4))
  {
    CompleteCommits();
    OthersStartElsewhere(x);
    OutputStarts(View(Complete), 4, 0, 1);
    DifferentHeads(Finalized(View(x), 4), Finalized(View(Complete), 4));
  }

  lemma ViewIsBuilt(x: Node)
    ensures Grows(View(x), View(Complete)) && BuiltFrom(View(x), View(Complete))
  {
    ViewGrows(x);
    NobodySignsTwice(Complete);
    BuiltByInsertions(View(x), View(Complete));
  }

  lemma LastDirectRound(x: Node)
    requires x != Complete
    ensures DirectDecision(View(x), if x == Behind then 2 else 4, 4).Direct?
  {
    DecidedByAll(x);
    DecidedLate();
  }

  /** Two nodes, no fault at all, and outputs of which neither continues the other:
      a skipped slot is not settled until the node has caught up with the round
      through which another node commits it. */
  lemma SkipSplitsOrder(x: Node)
    requires x != Complete
    ensures Grows(View(x), View(Complete)) && BuiltFrom(View(x), View(Complete))
    ensures WithinFaultBound(View(Complete), 4) && NoEquivocation(View(Complete))
    ensures Decision(View(x), 0, 4) == Skip && Decision(View(Complete), 0, 4) == Direct(1)
    ensures CommitsThrough(View(Complete), 4, 0, 3) && !CaughtUp(View(x), 4, 3)
    ensures DirectDecision(View(x), if x == Behind then 2 else 4, 4).Direct?
    ensures !Comparable(Finalized(View(x), 4), Finalized(View(Complete), 4))
  {
    ViewIsBuilt(x);
    CompleteIsWithinFaultBound();
    NobodySignsTwice(Complete);
    OthersSkip(x);
    CompleteCommits();
    OthersAreBehind(x);
    LastDirectRound(x);
    OutputsDiffer(x);
  }
}
