/** Extensions that break what one might expect of decisions: small DAGs, each of
    them the result of insertions into the store. */
module Counterexamples {
  import opened Sets
  import opened Certs
  import opened Causality
  import opened DagStores
  import opened Commit
  import opened Finality
  import opened FinalizedOrder

  // ----- Every DAG here is built by insertions -----

  ghost predicate Distinct(d: Dag)
  {
    forall g, h | g in d && h in d && d[g] == d[h] :: g == h
  }

  /** A hash function under which `d` is keyed by content hash. */
  ghost function Hasher(d: Dag): Certificate -> CertHash
  {
    (c: Certificate) => if exists h :: h in d && d[h] == c then (var h :| h in d && d[h] == c; h) else 0
  }

  lemma HasherKeys(d: Dag, h: CertHash)
    requires Distinct(d) && h in d
    ensures Hasher(d)(d[h]) == h
  {
  }

  /** A run of insertions takes the empty store to `d` and another takes it on to `e`. */
  ghost predicate BuiltFrom(d: Dag, e: Dag)
  {
    exists first, more :: Replay(Hasher(e), map[], first) == d && Replay(Hasher(e), d, more) == e
  }

  /** Nobody cites the newest certificate that an extension adds. */
  lemma NewestIsUncited(d: Dag, e: Dag, x: CertHash, h: CertHash)
    requires Grows(d, e) && x in e && x !in d && h in e
    requires forall g | g in e && g !in d :: e[g].round <= e[x].round
    ensures x !in e[h].parents
  {
    if h in d {
      assert e[h] == d[h];
    }
  }

  lemma NewestOf(e: Dag, added: set<CertHash>) returns (x: CertHash)
    requires added <= e.Keys && added != {}
    ensures x in added && forall g | g in added :: e[g].round <= e[x].round
  {
    var rounds: set<Round> := set h | h in added :: e[h].round;
    assert forall h | h in added :: e[h].round in rounds;
    var y :| y in added;
    assert e[y].round in rounds;
    var m := Max(rounds);
    x :| x in added && e[x].round == m;
  }

  lemma WithoutNewest(d: Dag, e: Dag, x: CertHash)
    requires Grows(d, e) && x in e && x !in d
    requires forall g | g in e && g !in d :: e[g].round <= e[x].round
    ensures Grows(d, e - {x})
  {
    forall h, p | h in e - {x} && p in e[h].parents ensures p in e - {x} {
      NewestIsUncited(d, e, x, h);
    }
  }

  lemma ReplayOne(H: Certificate -> CertHash, d: Dag, init: seq<Certificate>, before: Dag, c: Certificate)
    requires Replay(H, d, init) == before && Accepts(before, c, H(c))
    ensures Replay(H, d, init + [c]) == before[H(c) := c]
  {
    assert (init + [c])[..|init|] == init;
  }

  lemma FewerAdded(d: Dag, e: Dag, x: CertHash)
    requires x in e && x !in d
    ensures |(e - {x}).Keys - d.Keys| < |e.Keys - d.Keys|
  {
    assert (e - {x}).Keys - d.Keys == (e.Keys - d.Keys) - {x};
  }

  lemma NothingAdded(d: Dag, e: Dag)
    requires Grows(d, e) && e.Keys - d.Keys == {}
    ensures d == e
  {
    forall h | h in e ensures h in d { assert h !in e.Keys - d.Keys; }
  }

  lemma {:induction false} GrowthIsInsertion(H: Certificate -> CertHash, d: Dag, e: Dag) returns (cs: seq<Certificate>)
    requires Grows(d, e) && KeyedBy(H, e)
    ensures Replay(H, d, cs) == e
    decreases |e.Keys - d.Keys|
  {
    var added := e.Keys - d.Keys;
    if added == {} {
      cs := [];
      NothingAdded(d, e);
    } else {
      var x := NewestOf(e, added);
      WithoutNewest(d, e, x);
      FewerAdded(d, e, x);
      cs := GrowthIsInsertion(H, d, e - {x});
      LastInsertion(H, d, e, x, cs);
      cs := cs + [e[x]];
    }
  }

  lemma LastInsertion(H: Certificate -> CertHash, d: Dag, e: Dag, x: CertHash, init: seq<Certificate>)
    requires WellFormed(e) && x in e && H(e[x]) == x && Replay(H, d, init) == e - {x}
    ensures Replay(H, d, init + [e[x]]) == e
  {
    PutBack(e, x);
    ReplayOne(H, d, init, e - {x}, e[x]);
  }

  lemma PutBack(e: Dag, x: CertHash)
    requires WellFormed(e) && x in e
    ensures Accepts(e - {x}, e[x], x) && (e - {x})[x := e[x]] == e
  {
  }

  lemma BuiltByInsertions(d: Dag, e: Dag)
    requires Grows(d, e) && Distinct(e)
    ensures BuiltFrom(d, e)
  {
    forall h | h in e ensures Hasher(e)(e[h]) == h { HasherKeys(e, h); }
    var first := GrowthIsInsertion(Hasher(e), map[], d);
    var more := GrowthIsInsertion(Hasher(e), d, e);
  }

  // ----- Three supporters -----

  lemma ThreeDistinct(s: set<nat>, a: nat, b: nat, c: nat)
    requires a in s && b in s && c in s && a < b < c
    ensures |s| >= 3
  {
    SubsetSize({a, b, c}, s);
  }

  lemma Supported(d: Dag, target: CertHash, r: Round, a: CertHash, b: CertHash, c: CertHash)
    requires {a, b, c} <= d.Keys
    requires d[a].round == d[b].round == d[c].round == r
    requires target in d[a].parents && target in d[b].parents && target in d[c].parents
    requires d[a].author < d[b].author < d[c].author
    ensures |SupportersOf(d, target, r)| >= 3
  {
    ThreeDistinct(SupportersOf(d, target, r), d[a].author, d[b].author, d[c].author);
  }

  // ----- One inserted certificate can undo a commit -----

  /** Committee of one: author 0 leads every round and a single supporter
      commits.  Round 0 holds hash 5, cited by hash 6 at round 1; hash 1 is the
      leader's second round-0 certificate. */
  function Signed(h: CertHash): Certificate
  {
    if h == 6 then Certificate(0, 1, [5], 0) else Certificate(0, 0, [], h)
  }

  ghost function CommittedDag(): Dag
  {
    map h | h in {5, 6} :: Signed(h)
  }

  ghost function EquivocatedDag(): Dag
  {
    map h | h in {1, 5, 6} :: Signed(h)
  }

  lemma ExtensionCanUncommit()
    ensures Grows(CommittedDag(), EquivocatedDag()) && BuiltFrom(CommittedDag(), EquivocatedDag())
    ensures Decision(CommittedDag(), 0, 1) == Direct(5)
    ensures Decision(EquivocatedDag(), 0, 1) == Undecided
  {
    SecondSignature();
    CommittedDirectly();
    UncommittedSlot();
    NoAnchorThere();
    BuiltByInsertions(CommittedDag(), EquivocatedDag());
  }

  lemma SecondSignature()
    ensures Grows(CommittedDag(), EquivocatedDag()) && Distinct(EquivocatedDag())
  {
  }

  lemma NoAnchorThere()
    ensures forall a: Round :: !IsAnchor(EquivocatedDag(), 0, a, 1)
  {
    forall a: Round | a >= 2 ensures !DirectDecision(EquivocatedDag(), a, 1).Direct? {
      assert SlotSet(EquivocatedDag(), a, 0) == {};
    }
  }

  lemma CommittedDirectly()
    ensures DirectDecision(CommittedDag(), 0, 1) == Direct(5)
  {
    var d := CommittedDag();
    assert SlotSet(d, 0, 0) == {5};
    assert SupportersOf(d, 5, 1) == {0} by { assert d[6].author == 0; }
  }

  lemma UncommittedSlot()
    ensures !DirectDecision(EquivocatedDag(), 0, 1).Direct?
  {
    var e := EquivocatedDag();
    assert SlotSet(e, 0, 0) == {1, 5};
    assert Min(SlotSet(e, 0, 0)) == 1;
    assert SupportersOf(e, 1, 1) == {};
  }

  // ----- Skip is not final -----

  /** Committee of one again, hash `h` at round `h - 1`.  Each certificate cites the
      one before it, except that hash 2 ignores hash 1, which hash 5 cites late. */
  function Link(h: CertHash): Certificate
    requires h > 0
  {
    Certificate(0, h - 1, if h <= 2 then [] else if h == 5 then [4, 1] else [h - 1], 0)
  }

  ghost function Chain(k: nat): Dag
  {
    map h: CertHash | 1 <= h <= k :: Link(h)
  }

  lemma ChainGrows(j: nat, k: nat)
    requires j <= k
    ensures Grows(Chain(j), Chain(k)) && NoEquivocation(Chain(k))
  {
  }

  /** From round 1 on every round but the last two is directly decided. */
  lemma ChainAnchors(k: nat, a: Round)
    requires 1 <= a && a + 2 <= k
    ensures DirectDecision(Chain(k), a, 1) == Direct(a + 1)
  {
    var d := Chain(k);
    assert a + 1 in SlotSet(d, a, 0);
    assert forall g | g in SlotSet(d, a, 0) :: g == a + 1;
    assert a + 1 in d[a + 2].parents;
    assert 0 in SupportersOf(d, a + 1, a + 1) by { assert d[a + 2].author == 0; }
    assert |SupportersOf(d, a + 1, a + 1)| > 0;
  }

  lemma FirstLinkUnsupported(k: nat)
    requires k >= 1
    ensures LeaderCert(Chain(k), 0, 1) == Some(1) && !DirectDecision(Chain(k), 0, 1).Direct?
  {
    var d := Chain(k);
    assert 1 in SlotSet(d, 0, 0);
    assert forall g | g in SlotSet(d, 0, 0) :: g == 1;
    assert SupportersOf(d, 1, 1) == {};
  }

  lemma NobodyReachesOne(a: CertHash)
    requires 2 <= a <= 4
    ensures WellFormed(Chain(4)) && !Reaches(Chain(4), a, 1)
  {
    ChainGrows(4, 4);
    AncestorsLeast(Chain(4), a, {2, 3, 4});
  }

  lemma SkippedAtFour()
    ensures WellFormed(Chain(4)) && Decision(Chain(4), 0, 1) == Skip
  {
    var d := Chain(4);
    ChainGrows(4, 4);
    FirstLinkUnsupported(4);
    ChainAnchors(4, 2);
    assert IsAnchor(d, 0, 2, 1);
    forall a: Round | IsAnchor(d, 0, a, 1) ensures !Inherits(d, 0, a, 1) {
      DirectDecisionInDag(d, a, 1);
      NobodyReachesOne(DirectDecision(d, a, 1).hash);
    }
  }

  lemma CommittedAtSix()
    ensures WellFormed(Chain(6)) && Decision(Chain(6), 0, 1) == Direct(1)
  {
    var e := Chain(6);
    ChainGrows(6, 6);
    FirstLinkUnsupported(6);
    ChainAnchors(6, 4);
    assert Reaches(e, 1, 1);
    assert 1 in e[5].parents;
    assert Reaches(e, 5, 1);
    assert IsAnchor(e, 0, 4, 1) && Inherits(e, 0, 4, 1);
    InheritedDecides(e, 0, 4, 1);
  }

  /** A skipped slot can still be committed later, without any equivocation, so
      the one step up from Skip in `DecisionsClimb` is really taken. */
  lemma SkipCanBecomeDirect()
    ensures Grows(Chain(4), Chain(6)) && BuiltFrom(Chain(4), Chain(6)) && NoEquivocation(Chain(6))
    ensures Decision(Chain(4), 0, 1) == Skip && Decision(Chain(6), 0, 1) == Direct(1)
  {
    ChainGrows(4, 6);
    SkippedAtFour();
    CommittedAtSix();
    BuiltByInsertions(Chain(4), Chain(6));
  }

  // ----- An indirect commit can be undone far from its slot -----

  /** Round 4, the anchor behind the commit of hash 1, gains a smaller leader hash. */
  ghost function RepealedDag(): Dag
  {
    map h: CertHash | h <= 6 :: if h == 0 then Certificate(0, 4, [], 9) else Link(h)
  }

  lemma RepealedGrows(k: nat)
    requires k <= 6
    ensures Grows(Chain(k), RepealedDag()) && Distinct(RepealedDag())
  {
    ChainGrows(k, 6);
  }

  /** Without support at the next round there is no anchor. */
  lemma UnsupportedIsNoAnchor(d: Dag, a: Round)
    requires LeaderCert(d, a, 1).Some? ==>
               forall s | s in d && d[s].round == a + 1 :: LeaderCert(d, a, 1).value !in d[s].parents
    ensures !DirectDecision(d, a, 1).Direct?
  {
    if LeaderCert(d, a, 1).Some? {
      assert SupportersOf(d, LeaderCert(d, a, 1).value, a + 1) == {};
    }
  }

  lemma RepealedLookups()
    ensures LeaderCert(RepealedDag(), 0, 1) == Some(1) && LeaderCert(RepealedDag(), 4, 1) == Some(0)
  {
    var e := RepealedDag();
    assert 1 in SlotSet(e, 0, 0) && forall g | g in SlotSet(e, 0, 0) :: g == 1;
    assert 0 in SlotSet(e, 4, 0);
  }

  lemma RepealedKeepsAnchor()
    ensures IsAnchor(RepealedDag(), 0, 2, 1)
  {
    RepealedGrows(6);
    ChainAnchors(6, 2);
    DirectCommitSurvivesIff(Chain(6), RepealedDag(), 2, 1);
  }

  lemma RepealedAnchorLost()
    ensures !DirectDecision(RepealedDag(), 4, 1).Direct? && !DirectDecision(RepealedDag(), 0, 1).Direct?
  {
    RepealedLookups();
    UnsupportedIsNoAnchor(RepealedDag(), 4);
    UnsupportedIsNoAnchor(RepealedDag(), 0);
  }

  /** The anchors left are certificates that do not reach hash 1. */
  lemma RepealedAnchors(a: Round)
    requires IsAnchor(RepealedDag(), 0, a, 1)
    ensures WellFormed(RepealedDag()) && !Inherits(RepealedDag(), 0, a, 1)
  {
    var e := RepealedDag();
    RepealedGrows(4);
    RepealedLookups();
    RepealedAnchorLost();
    DirectDecisionInDag(e, a, 1);
    var c := DirectDecision(e, a, 1).hash;
    NobodyReachesOne(c);
    ReachesStable(Chain(4), e, c, 1);
  }

  lemma RepealedSkips()
    ensures WellFormed(RepealedDag()) && Decision(RepealedDag(), 0, 1) == Skip
  {
    RepealedGrows(6);
    RepealedAnchorLost();
    RepealedKeepsAnchor();
    forall a: Round | IsAnchor(RepealedDag(), 0, a, 1) ensures !Inherits(RepealedDag(), 0, a, 1) {
      RepealedAnchors(a);
    }
  }

  /** A commit through an anchor turns into Skip although its own slot gains
      nothing: the anchor's leader signed twice. */
  lemma IndirectCommitCanBeSkipped()
    ensures Grows(Chain(6), RepealedDag()) && BuiltFrom(Chain(6), RepealedDag())
    ensures LeaderCert(RepealedDag(), 0, 1) == LeaderCert(Chain(6), 0, 1) == Some(1)
    ensures Decision(Chain(6), 0, 1) == Direct(1) && Decision(RepealedDag(), 0, 1) == Skip
  {
    CommittedAtSix();
    FirstLinkUnsupported(6);
    RepealedGrows(6);
    RepealedLookups();
    RepealedSkips();
    BuiltByInsertions(Chain(6), RepealedDag());
  }

  // ----- The finalized sequence is not append-only -----

  /** A certificate without parents is its own history. */
  lemma RootHistory(d: Dag, x: CertHash)
    requires WellFormed(d) && x in d && d[x].parents == []
    ensures History(d, x) == [x]
  {
    AncestorsClosed(d, x);
    AncestorsLeast(d, x, {x});
    assert Ancestors(d, x) == {x};
    SortedUnique(d, Ordered(d, {x}), [x]);
  }

  lemma FreshStart(h: CertHash)
    ensures WithFresh([], [h]) == [h]
  {
    assert [h][..0] == [];
    assert Fresh([h][..0], []) == [];
    assert Fresh([h], []) == [h];
  }

  lemma FirstOutput(d: Dag, n: nat, r: Round, h: CertHash)
    requires n > 0 && WellFormed(d) && Decision(d, r, n) == Direct(h) && h in d && d[h].parents == []
    ensures WithSlot(d, n, [], r) == [h]
  {
    RootHistory(d, h);
    FreshStart(h);
  }

  /** If slot `r` commits a parentless certificate and no earlier slot commits
      anything, the output starts with that certificate. */
  lemma OutputStarts(d: Dag, n: nat, r: Round, h: CertHash)
    requires n > 0 && WellFormed(d) && Decision(d, r, n) == Direct(h) && h in d && d[h].parents == []
    requires FinalizedBelow(d, n, r) == []
    ensures Finalized(d, n) != [] && Finalized(d, n)[0] == h
  {
    var next: nat := r + 1;
    FirstOutput(d, n, r, h);
    FinalizedStep(d, n, r, next);
    OutputPrefix(d, n, next);
  }

  /** So `finalize` is not append-only, equivocation or not: the late commit of
      hash 1 goes in front of what was already finalized. */
  lemma LateCommitGoesInFront()
    ensures Grows(Chain(4), Chain(6)) && NoEquivocation(Chain(6))
    ensures !IsPrefix(Finalized(Chain(4), 1), Finalized(Chain(6), 1))
  {
    SkipCanBecomeDirect();
    OldOutputStartsWithTwo();
    OutputStarts(Chain(6), 1, 0, 1);
  }

  lemma OldOutputStartsWithTwo()
    ensures WellFormed(Chain(4)) && Finalized(Chain(4), 1) != [] && Finalized(Chain(4), 1)[0] == 2
  {
    var d := Chain(4);
    SkippedAtFour();
    ChainAnchors(4, 1);
    FinalizedStep(d, 1, 0, 1);
    OpenSlotAddsNothing(d, 1, [], 0);
    OutputStarts(d, 1, 1, 2);
  }
}
