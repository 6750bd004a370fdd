/** Agreement between nodes.  Each node holds its own store; two stores share a
    hash function, so they agree on every hash they share as long as the hash
    does not collide on the certificates involved. */
module Agreement {
  import opened Sets
  import opened Certs
  import opened Causality
  import opened Commit
  import opened Finality
  import opened FinalizedOrder

  /** Two views give the same certificate to every hash they share. */
  ghost predicate Compatible(v: Dag, w: Dag)
  {
    forall h | h in v && h in w :: v[h] == w[h]
  }

  /** Stores over one collision-free hash are compatible. */
  lemma SharedHashesAgree(H: Certificate -> CertHash, v: Dag, w: Dag)
    requires KeyedBy(H, v) && KeyedBy(H, w)
    requires forall g, h | g in v && h in w && H(v[g]) == H(w[h]) :: v[g] == w[h]
    ensures Compatible(v, w)
  {
  }

  /** Two compatible views are both contained in their union. */
  lemma UnionGrowsBoth(v: Dag, w: Dag)
    requires WellFormed(v) && WellFormed(w) && Compatible(v, w)
    ensures Grows(v, v + w) && Grows(w, v + w)
  {
  }

  // ----- Premises on what authors do; the store checks none of them -----

  ghost predicate AuthorsInCommittee(d: Dag, n: nat)
  {
    forall h | h in d :: d[h].author < n
  }

  /** Authors of the parents that `h` cites in the round just before its own. */
  ghost function CitedAuthors(d: Dag, h: CertHash): set<AuthorityId>
    requires WellFormed(d) && h in d
  {
    set p | p in d[h].parents && d[p].round + 1 == d[h].round :: d[p].author
  }

  ghost predicate ParentsCoverQuorum(d: Dag, n: nat)
    requires WellFormed(d)
  {
    forall h | h in d && d[h].round > 0 :: |CitedAuthors(d, h)| >= QuorumThreshold(n)
  }

  /** Authors with two certificates at some round. */
  ghost function Equivocators(d: Dag): set<AuthorityId>
  {
    set h | h in d && (exists g :: g in d && g != h && d[g].round == d[h].round && d[g].author == d[h].author)
      :: d[h].author
  }

  /** The fault model: known authors, a quorum of parents above genesis, and at
      most f = floor((n - 1) / 3) authors that equivocate, anywhere and anyhow. */
  ghost predicate WithinFaultBound(d: Dag, n: nat)
  {
    && n > 0 && WellFormed(d)
    && AuthorsInCommittee(d, n)
    && ParentsCoverQuorum(d, n)
    && |Equivocators(d)| <= (n - 1) / 3
  }

  /** The leader of round `r` authored at most one certificate for it. */
  ghost predicate OneLeaderCert(d: Dag, r: Round, n: nat)
    requires n > 0
  {
    forall g, h | g in SlotSet(d, r, Leader(r, n)) && h in SlotSet(d, r, Leader(r, n)) :: g == h
  }

  ghost function Committee(n: nat): (c: set<AuthorityId>)
    ensures forall a: AuthorityId :: a in c <==> a < n
    ensures |c| == n
  {
    if n == 0 then {} else Committee(n - 1) + {n - 1}
  }

  /** A leader certificate cited at the next round by everyone but a set of silent
      authors of tolerable size is decided directly. */
  lemma ResponsiveQuorumCommits(d: Dag, n: nat, r: Round, h: CertHash, silent: set<AuthorityId>)
    requires n > 0 && LeaderCert(d, r, n) == Some(h) && |silent| <= (n - 1) / 3
    requires forall a: AuthorityId | a < n && a !in silent :: a in SupportersOf(d, h, r + 1)
    ensures DirectDecision(d, r, n) == Direct(h)
  {
    var rest := Committee(n) - silent;
    assert Committee(n) == rest + Committee(n) * silent;
    SubsetSize(Committee(n) * silent, silent);
    SubsetSize(rest, SupportersOf(d, h, r + 1));
  }

  /** Any two quorums share at least ceil(n / 3) authors. */
  lemma QuorumsOverlap(a: set<AuthorityId>, b: set<AuthorityId>, n: nat)
    requires n > 0 && forall x | x in a + b :: x < n
    requires |a| >= QuorumThreshold(n) && |b| >= QuorumThreshold(n)
    ensures |a * b| >= (n + 2) / 3
  {
    OverlapSize(a, b, n);
    assert 2 * QuorumThreshold(n) - n >= (n + 2) / 3;
  }

  /** So two quorums share an author outside any set of at most f authors. */
  lemma QuorumsShareCorrectAuthor(a: set<AuthorityId>, b: set<AuthorityId>, faulty: set<AuthorityId>, n: nat)
    requires n > 0 && forall x | x in a + b :: x < n
    requires |a| >= QuorumThreshold(n) && |b| >= QuorumThreshold(n)
    requires |faulty| <= (n - 1) / 3
    ensures exists x :: x in a && x in b && x !in faulty
  {
    QuorumsOverlap(a, b, n);
    if a * b <= faulty { SubsetSize(a * b, faulty); }
    var x :| x in a * b && x !in faulty;
  }

  lemma SupportersInCommittee(d: Dag, n: nat, target: CertHash, r: Round)
    requires AuthorsInCommittee(d, n)
    ensures forall a | a in SupportersOf(d, target, r) :: a < n
  {
  }

  /** A quorum-supported certificate of round `r` is cited, directly or not, by
      every certificate from round `r + 2` on. */
  lemma {:induction false} QuorumReachesEverything(u: Dag, n: nat, r: Round, h: CertHash, c: CertHash)
    requires WithinFaultBound(u, n) && h in u && u[h].round == r
    requires |SupportersOf(u, h, r + 1)| >= QuorumThreshold(n)
    requires c in u && u[c].round >= r + 2
    ensures Reaches(u, c, h)
    decreases u[c].round
  {
    if u[c].round == r + 2 {
      QuorumReachesNext(u, n, r, h, c);
    } else {
      assert CitedAuthors(u, c) != {};
      var a :| a in CitedAuthors(u, c);
      var p :| p in u[c].parents && u[p].round + 1 == u[c].round && u[p].author == a;
      QuorumReachesEverything(u, n, r, h, p);
    }
  }

  lemma QuorumReachesNext(u: Dag, n: nat, r: Round, h: CertHash, c: CertHash)
    requires WithinFaultBound(u, n) && h in u && u[h].round == r
    requires |SupportersOf(u, h, r + 1)| >= QuorumThreshold(n)
    requires c in u && u[c].round == r + 2
    ensures Reaches(u, c, h)
  {
    SupportersInCommittee(u, n, h, r + 1);
    forall x | x in CitedAuthors(u, c) ensures x < n {
      var p :| p in u[c].parents && u[p].author == x;
    }
    QuorumsShareCorrectAuthor(SupportersOf(u, h, r + 1), CitedAuthors(u, c), Equivocators(u), n);
    var a :| a in SupportersOf(u, h, r + 1) && a in CitedAuthors(u, c) && a !in Equivocators(u);
    var s :| s in u && u[s].round == r + 1 && h in u[s].parents && u[s].author == a;
    var p :| p in u[c].parents && u[p].round + 1 == u[c].round && u[p].author == a;
    assert s == p;
    assert Reaches(u, h, h);
    assert Reaches(u, p, h);
  }

  /** Whoever holds an anchor for round `r` holds the quorum-supported leader
      certificate of round `r` and reaches it from the anchor. */
  lemma AnchorReaches(v: Dag, u: Dag, n: nat, r: Round, h: CertHash, a: Round)
    requires WithinFaultBound(u, n) && Grows(v, u)
    requires h in u && u[h].round == r && u[h].author == Leader(r, n)
    requires |SupportersOf(u, h, r + 1)| >= QuorumThreshold(n)
    requires IsAnchor(v, r, a, n)
    ensures h in SlotSet(v, r, Leader(r, n))
    ensures DirectDecision(v, a, n).hash in v && Reaches(v, DirectDecision(v, a, n).hash, h)
  {
    var c := DirectDecision(v, a, n).hash;
    DirectDecisionInDag(v, a, n);
    QuorumReachesEverything(u, n, r, h, c);
    ReachesStable(v, u, c, h);
    ReachesIsOlder(v, c, h);
  }

  /** So it commits exactly that certificate, provided it looks it up, that is,
      provided its slot holds no certificate with a smaller hash. */
  lemma AnchorInherits(v: Dag, u: Dag, n: nat, r: Round, h: CertHash, a: Round)
    requires WithinFaultBound(u, n) && Grows(v, u)
    requires h in u && u[h].round == r && u[h].author == Leader(r, n)
    requires |SupportersOf(u, h, r + 1)| >= QuorumThreshold(n)
    requires IsAnchor(v, r, a, n)
    ensures Decision(v, r, n) == Direct(h) <==> forall g | g in SlotSet(v, r, Leader(r, n)) :: h <= g
  {
    AnchorReaches(v, u, n, r, h, a);
    if LeaderCert(v, r, n) == Some(h) {
      InheritedDecides(v, r, a, n);
    } else if Decision(v, r, n) == Direct(h) {
      DirectIsLeaderCert(v, r, n);
    }
    assert LeaderCert(v, r, n) == Some(Min(SlotSet(v, r, Leader(r, n))));
  }

  /** A direct commit in one view binds the union: `h` keeps its quorum there. */
  lemma CommitHoldsInUnion(v: Dag, w: Dag, n: nat, r: Round, h: CertHash)
    requires n > 0 && WellFormed(v) && WellFormed(w) && Compatible(v, w)
    requires DirectDecision(v, r, n) == Direct(h)
    ensures h in v && h in v + w && (v + w)[h] == v[h]
    ensures v[h].round == r && v[h].author == Leader(r, n)
    ensures |SupportersOf(v + w, h, r + 1)| >= QuorumThreshold(n)
  {
    UnionGrowsBoth(v, w);
    DirectDecisionInDag(v, r, n);
    SupportGrows(v, v + w, h, r + 1);
  }

  /** Once one view commits `h` at round `r` by the direct rule, every certificate
      anywhere from round `r + 2` on carries `h` in its causal history. */
  lemma DirectCommitIsInherited(v: Dag, w: Dag, n: nat, r: Round, h: CertHash, c: CertHash)
    requires WellFormed(v) && WellFormed(w) && Compatible(v, w) && WithinFaultBound(v + w, n)
    requires DirectDecision(v, r, n) == Direct(h)
    requires c in v + w && (v + w)[c].round >= r + 2
    ensures Reaches(v + w, c, h)
  {
    CommitHoldsInUnion(v, w, n, r, h);
    QuorumReachesEverything(v + w, n, r, h, c);
  }

  // ----- Two direct commits -----

  /** Authors with two certificates at round `r`. */
  ghost function SignedTwice(d: Dag, r: Round): set<AuthorityId>
  {
    set h | h in d && d[h].round == r && (exists g :: g in d && g != h && d[g].round == r && d[g].author == d[h].author)
      :: d[h].author
  }

  lemma SignedTwiceEquivocates(d: Dag, r: Round)
    ensures SignedTwice(d, r) <= Equivocators(d)
  {
    forall x | x in SignedTwice(d, r) ensures x in Equivocators(d) {
      var h :| h in d && d[h].author == x
               && exists g :: g in d && g != h && d[g].round == d[h].round && d[g].author == d[h].author;
    }
  }

  /** A view that commits `h` does not hold a smaller certificate of that slot. */
  lemma SmallerIsUnknown(v: Dag, w: Dag, u: Dag, n: nat, r: Round, g: CertHash, h: CertHash)
    requires n > 0 && Grows(v, u) && Grows(w, u) && g < h
    requires DirectDecision(v, r, n) == Direct(g) && DirectDecision(w, r, n) == Direct(h)
    ensures g !in w
  {
    DirectDecisionInDag(v, r, n);
    assert u[g] == v[g];
    forall x | x in w && w[x].round == r && w[x].author == Leader(r, n) ensures h <= x {
      assert x in SlotSet(w, r, Leader(r, n));
    }
  }

  /** So whoever supports both has signed two different certificates: the one that
      supports `h` cannot cite `g`. */
  lemma SharedSupporterSignedTwice(v: Dag, w: Dag, u: Dag, n: nat, r: Round, g: CertHash, h: CertHash, x: AuthorityId)
    requires n > 0 && Grows(v, u) && Grows(w, u) && g < h
    requires DirectDecision(v, r, n) == Direct(g) && DirectDecision(w, r, n) == Direct(h)
    requires x in SupportersOf(v, g, r + 1) && x in SupportersOf(w, h, r + 1)
    ensures x in SignedTwice(u, r + 1)
  {
    SmallerIsUnknown(v, w, u, n, r, g, h);
    var s :| s in v && v[s].round == r + 1 && g in v[s].parents && v[s].author == x;
    var t :| t in w && w[t].round == r + 1 && h in w[t].parents && w[t].author == x;
    assert u[s] == v[s] && u[t] == w[t] && g !in w[t].parents;
  }

  ghost function BothSupport(v: Dag, w: Dag, r: Round, g: CertHash, h: CertHash): set<AuthorityId>
  {
    SupportersOf(v, g, r + 1) * SupportersOf(w, h, r + 1)
  }

  lemma BothSupportIsLarge(v: Dag, w: Dag, u: Dag, n: nat, r: Round, g: CertHash, h: CertHash)
    requires n > 0 && Grows(v, u) && Grows(w, u) && AuthorsInCommittee(u, n)
    requires DirectDecision(v, r, n) == Direct(g) && DirectDecision(w, r, n) == Direct(h)
    ensures |BothSupport(v, w, r, g, h)| >= (n + 2) / 3
  {
    SupportGrows(v, u, g, r + 1);
    SupportGrows(w, u, h, r + 1);
    SupportersInCommittee(u, n, g, r + 1);
    SupportersInCommittee(u, n, h, r + 1);
    QuorumsOverlap(SupportersOf(v, g, r + 1), SupportersOf(w, h, r + 1), n);
  }

  lemma BothSupportSignedTwice(v: Dag, w: Dag, u: Dag, n: nat, r: Round, g: CertHash, h: CertHash)
    requires n > 0 && Grows(v, u) && Grows(w, u) && g != h
    requires DirectDecision(v, r, n) == Direct(g) && DirectDecision(w, r, n) == Direct(h)
    ensures BothSupport(v, w, r, g, h) <= SignedTwice(u, r + 1)
  {
    forall x | x in BothSupport(v, w, r, g, h) ensures x in SignedTwice(u, r + 1) {
      if g < h {
        SharedSupporterSignedTwice(v, w, u, n, r, g, h, x);
      } else {
        SharedSupporterSignedTwice(w, v, u, n, r, h, g, x);
      }
    }
  }

  /** Two conflicting direct commits mean that a third of the committee, rounded
      up, signed two different certificates at the next round. */
  lemma ConflictCostsSignatures(v: Dag, w: Dag, u: Dag, n: nat, r: Round, g: CertHash, h: CertHash)
    requires n > 0 && Grows(v, u) && Grows(w, u) && AuthorsInCommittee(u, n) && g != h
    requires DirectDecision(v, r, n) == Direct(g) && DirectDecision(w, r, n) == Direct(h)
    ensures |SignedTwice(u, r + 1)| >= (n + 2) / 3
  {
    BothSupportIsLarge(v, w, u, n, r, g, h);
    BothSupportSignedTwice(v, w, u, n, r, g, h);
    SubsetSize(BothSupport(v, w, r, g, h), SignedTwice(u, r + 1));
  }

  /** Within the fault bound two direct commits never conflict, whatever the slot's
      leader does. */
  lemma DirectCommitsAgree(v: Dag, w: Dag, n: nat, r: Round)
    requires WellFormed(v) && WellFormed(w) && Compatible(v, w) && WithinFaultBound(v + w, n)
    requires DirectDecision(v, r, n).Direct? && DirectDecision(w, r, n).Direct?
    ensures DirectDecision(v, r, n) == DirectDecision(w, r, n)
  {
    var g, h := DirectDecision(v, r, n).hash, DirectDecision(w, r, n).hash;
    UnionGrowsBoth(v, w);
    if g != h {
      ConflictCostsSignatures(v, w, v + w, n, r, g, h);
      SignedTwiceEquivocates(v + w, r + 1);
      SubsetSize(SignedTwice(v + w, r + 1), Equivocators(v + w));
    }
  }

  /** Cross-view agreement: a slot that one view committed directly is never
      skipped, nor committed to another hash, by a view without an anchor for it;
      and by a view with one exactly when its leader slot holds no smaller hash. */
  lemma DirectCommitAgreement(v: Dag, w: Dag, n: nat, r: Round, h: CertHash)
    requires WellFormed(v) && WellFormed(w) && Compatible(v, w) && WithinFaultBound(v + w, n)
    requires DirectDecision(v, r, n) == Direct(h)
    ensures Decision(w, r, n) == Direct(h) || Decision(w, r, n) == Undecided
       <==> (forall a: Round :: !IsAnchor(w, r, a, n)) || forall g | g in SlotSet(w, r, Leader(r, n)) :: h <= g
  {
    if a: Round :| IsAnchor(w, r, a, n) {
      AgreementIff(v, w, n, r, h);
      AnchorMeansDecided(w, r, a, n);
    } else if DirectDecision(w, r, n).Direct? {
      DirectCommitsAgree(v, w, n, r);
    }
  }

  /** In particular when the leader signed once. */
  lemma OneLeaderCertAgrees(v: Dag, w: Dag, n: nat, r: Round, h: CertHash)
    requires WellFormed(v) && WellFormed(w) && Compatible(v, w) && WithinFaultBound(v + w, n)
    requires OneLeaderCert(v + w, r, n) && DirectDecision(v, r, n) == Direct(h)
    ensures Decision(w, r, n) == Direct(h) || Decision(w, r, n) == Undecided
  {
    AloneIsLeast(v, w, n, r, h);
    DirectCommitAgreement(v, w, n, r, h);
  }

  lemma AloneIsLeast(v: Dag, w: Dag, n: nat, r: Round, h: CertHash)
    requires n > 0 && WellFormed(v) && WellFormed(w) && Compatible(v, w)
    requires OneLeaderCert(v + w, r, n) && DirectDecision(v, r, n) == Direct(h)
    ensures forall g | g in SlotSet(w, r, Leader(r, n)) :: h <= g
  {
    UnionGrowsBoth(v, w);
    DirectDecisionInDag(v, r, n);
    assert h in SlotSet(v + w, r, Leader(r, n));
    forall g | g in SlotSet(w, r, Leader(r, n)) ensures h <= g {
      assert g in SlotSet(v + w, r, Leader(r, n));
    }
  }

  /** With any number of leader certificates, agreement on a directly committed
      slot holds in a view with an anchor exactly when that view's leader slot
      holds no smaller hash. */
  lemma AgreementIff(v: Dag, w: Dag, n: nat, r: Round, h: CertHash)
    requires WellFormed(v) && WellFormed(w) && Compatible(v, w) && WithinFaultBound(v + w, n)
    requires DirectDecision(v, r, n) == Direct(h)
    requires exists a: Round :: IsAnchor(w, r, a, n)
    ensures Decision(w, r, n) == Direct(h) <==> forall g | g in SlotSet(w, r, Leader(r, n)) :: h <= g
  {
    UnionGrowsBoth(v, w);
    CommitHoldsInUnion(v, w, n, r, h);
    var a: Round :| IsAnchor(w, r, a, n);
    AnchorInherits(w, v + w, n, r, h, a);
  }

  /** Two views that both commit a slot, by whichever rule, commit the same hash
      unless the slot's leader authored two certificates for it. */
  lemma ConflictMeansLeaderEquivocates(v: Dag, w: Dag, n: nat, r: Round)
    requires n > 0 && WellFormed(v) && WellFormed(w) && Compatible(v, w)
    requires Decision(v, r, n).Direct? && Decision(w, r, n).Direct?
    requires Decision(v, r, n) != Decision(w, r, n)
    ensures var g, h := Decision(v, r, n).hash, Decision(w, r, n).hash;
            g != h && {g, h} <= SlotSet(v + w, r, Leader(r, n))
  {
    UnionGrowsBoth(v, w);
    DirectIsLeaderCert(v, r, n);
    DirectIsLeaderCert(w, r, n);
    var g, h := Decision(v, r, n).hash, Decision(w, r, n).hash;
    assert (v + w)[g] == v[g] && (v + w)[h] == w[h];
  }

  // ----- Commits by either rule -----

  /** Where both views look up a leader certificate they look up the same one. */
  ghost predicate LookupsAgree(v: Dag, w: Dag, n: nat, r: Round)
    requires n > 0
  {
    LeaderCert(v, r, n).Some? && LeaderCert(w, r, n).Some? ==> LeaderCert(v, r, n) == LeaderCert(w, r, n)
  }

  /** A slot committed directly in one view and decided in the other is committed
      in both. */
  lemma DecidedMeansCommitted(v: Dag, w: Dag, n: nat, r: Round)
    requires WellFormed(v) && WellFormed(w) && Compatible(v, w) && WithinFaultBound(v + w, n)
    requires LookupsAgree(v, w, n, r) && DirectDecision(v, r, n).Direct? && Decision(w, r, n) != Undecided
    ensures Decision(w, r, n) == Decision(v, r, n)
  {
    var h := DirectDecision(v, r, n).hash;
    if DirectDecision(w, r, n).Direct? {
      DirectCommitsAgree(v, w, n, r);
    } else {
      var a: Round :| IsAnchor(w, r, a, n);
      UnionGrowsBoth(v, w);
      CommitHoldsInUnion(v, w, n, r, h);
      AnchorReaches(w, v + w, n, r, h, a);
      InheritedDecides(w, r, a, n);
    }
  }

  lemma UnionCommutes(v: Dag, w: Dag)
    requires Compatible(v, w)
    ensures v + w == w + v && Compatible(w, v)
  {
  }

  /** Round `a` commits slot `r`: `a` is `r` and decided directly, or `a` is an anchor
      with the leader certificate of `r` in its history. */
  ghost predicate CommitsThrough(v: Dag, n: nat, r: Round, a: Round)
    requires n > 0 && WellFormed(v)
  {
    if a == r then DirectDecision(v, r, n).Direct? else IsAnchor(v, r, a, n) && Inherits(v, r, a, n)
  }

  /** `w` has decided round `a` directly, or a round at least two above it. */
  ghost predicate CaughtUp(w: Dag, n: nat, a: Round)
    requires n > 0
  {
    exists b: Round :: (b == a || b >= a + 2) && DirectDecision(w, b, n).Direct?
  }

  lemma ThroughMeansCommitted(v: Dag, n: nat, r: Round, a: Round)
    requires n > 0 && WellFormed(v) && CommitsThrough(v, n, r, a)
    ensures Decision(v, r, n).Direct?
  {
    if a != r { InheritedDecides(v, r, a, n); }
  }

  lemma CommittedThrough(v: Dag, n: nat, r: Round) returns (a: Round)
    requires n > 0 && WellFormed(v) && Decision(v, r, n).Direct?
    ensures CommitsThrough(v, n, r, a)
  {
    if DirectDecision(v, r, n).Direct? {
      a := r;
    } else {
      a :| IsAnchor(v, r, a, n) && Inherits(v, r, a, n);
    }
  }

  /** The certificate that one view decided directly at `a` is in the history of
      the one that a caught-up view decided directly at `b`. */
  lemma RoundCarries(v: Dag, w: Dag, n: nat, a: Round, b: Round)
    requires WellFormed(v) && WellFormed(w) && Compatible(v, w) && WithinFaultBound(v + w, n)
    requires DirectDecision(v, a, n).Direct? && DirectDecision(w, b, n).Direct? && (b == a || b >= a + 2)
    ensures DirectDecision(w, b, n).hash in w
    ensures Reaches(w, DirectDecision(w, b, n).hash, DirectDecision(v, a, n).hash)
  {
    var c, e := DirectDecision(v, a, n).hash, DirectDecision(w, b, n).hash;
    UnionGrowsBoth(v, w);
    DirectDecisionInDag(w, b, n);
    if b == a {
      DirectCommitsAgree(v, w, n, a);
      assert Reaches(w, e, c);
    } else {
      DirectCommitIsInherited(v, w, n, a, c, e);
      ReachesStable(w, v + w, e, c);
    }
  }

  /** So it has in its history whatever that certificate has. */
  lemma RoundCarriesHistory(v: Dag, w: Dag, n: nat, a: Round, b: Round, h: CertHash)
    requires WellFormed(v) && WellFormed(w) && Compatible(v, w) && WithinFaultBound(v + w, n)
    requires DirectDecision(v, a, n).Direct? && DirectDecision(w, b, n).Direct? && (b == a || b >= a + 2)
    requires DirectDecision(v, a, n).hash in v && Reaches(v, DirectDecision(v, a, n).hash, h)
    ensures DirectDecision(w, b, n).hash in w && Reaches(w, DirectDecision(w, b, n).hash, h)
    ensures h in v && h in w && v[h] == w[h]
  {
    var c, e := DirectDecision(v, a, n).hash, DirectDecision(w, b, n).hash;
    UnionGrowsBoth(v, w);
    RoundCarries(v, w, n, a, b);
    ReachesIsOlder(w, e, c);
    ReachesStable(v, v + w, c, h);
    ReachesStable(w, v + w, c, h);
    ReachesTransitive(w, e, c, h);
    ReachesIsOlder(w, e, h);
    ReachesIsOlder(v, c, h);
  }

  /** The caught-up view commits what `v` commits through an anchor. */
  lemma AnchorIsFollowed(v: Dag, w: Dag, n: nat, r: Round, a: Round, b: Round)
    requires WellFormed(v) && WellFormed(w) && Compatible(v, w) && WithinFaultBound(v + w, n)
    requires LookupsAgree(v, w, n, r) && IsAnchor(v, r, a, n) && Inherits(v, r, a, n)
    requires DirectDecision(w, b, n).Direct? && (b == a || b >= a + 2)
    ensures Decision(w, r, n) == Decision(v, r, n)
  {
    var h := LeaderCert(v, r, n).value;
    RoundCarriesHistory(v, w, n, a, b, h);
    assert h in SlotSet(v, r, Leader(r, n));
    assert h in SlotSet(w, r, Leader(r, n));
    InheritedDecides(v, r, a, n);
    InheritedDecides(w, r, b, n);
  }

  lemma RoundIsFollowed(v: Dag, w: Dag, n: nat, r: Round, a: Round, b: Round)
    requires WellFormed(v) && WellFormed(w) && Compatible(v, w) && WithinFaultBound(v + w, n)
    requires LookupsAgree(v, w, n, r) && CommitsThrough(v, n, r, a)
    requires DirectDecision(w, b, n).Direct? && (b == a || b >= a + 2)
    ensures Decision(w, r, n) == Decision(v, r, n)
  {
    if a != r {
      AnchorIsFollowed(v, w, n, r, a, b);
    } else {
      if b >= r + 2 { AnchorMeansDecided(w, r, b, n); }
      DecidedMeansCommitted(v, w, n, r);
    }
  }

  /** A slot that one view commits through round `a`, by either rule, is committed
      alike by every view that has caught up with `a`, exactly when the two look up
      the same leader certificate. */
  lemma CommitIsFollowed(v: Dag, w: Dag, n: nat, r: Round, a: Round)
    requires WellFormed(v) && WellFormed(w) && Compatible(v, w) && WithinFaultBound(v + w, n)
    requires CommitsThrough(v, n, r, a) && CaughtUp(w, n, a)
    ensures Decision(w, r, n) == Decision(v, r, n) <==> LookupsAgree(v, w, n, r)
  {
    ThroughMeansCommitted(v, n, r, a);
    if LookupsAgree(v, w, n, r) {
      var b: Round :| (b == a || b >= a + 2) && DirectDecision(w, b, n).Direct?;
      RoundIsFollowed(v, w, n, r, a, b);
    } else if Decision(w, r, n) == Decision(v, r, n) {
      DirectIsLeaderCert(v, r, n);
      DirectIsLeaderCert(w, r, n);
    }
  }

  /** A view that does not commit it has decided directly only rounds below `a`,
      and perhaps the one just above. */
  lemma UnfollowedIsBehind(v: Dag, w: Dag, n: nat, r: Round, a: Round, b: Round)
    requires WellFormed(v) && WellFormed(w) && Compatible(v, w) && WithinFaultBound(v + w, n)
    requires LookupsAgree(v, w, n, r) && CommitsThrough(v, n, r, a) && Decision(w, r, n) != Decision(v, r, n)
    requires DirectDecision(w, b, n).Direct?
    ensures b < a || b == a + 1
  {
    if b == a || b >= a + 2 { RoundIsFollowed(v, w, n, r, a, b); }
  }

  /** So the two agree exactly when the other view has caught up or one of those
      few rounds commits the slot for it. */
  lemma CommitFollowedIff(v: Dag, w: Dag, n: nat, r: Round, a: Round)
    requires WellFormed(v) && WellFormed(w) && Compatible(v, w) && WithinFaultBound(v + w, n)
    requires LookupsAgree(v, w, n, r) && CommitsThrough(v, n, r, a)
    ensures Decision(w, r, n) == Decision(v, r, n)
       <==> CaughtUp(w, n, a) || exists b: Round :: (b < a || b == a + 1) && CommitsThrough(w, n, r, b)
  {
    ThroughMeansCommitted(v, n, r, a);
    if Decision(w, r, n).Direct? {
      var b := CommittedThrough(w, n, r);
      assert b != r ==> IsAnchor(w, r, b, n);
      DirectIsLeaderCert(v, r, n);
      DirectIsLeaderCert(w, r, n);
    } else {
      forall b: Round | CommitsThrough(w, n, r, b) ensures false { ThroughMeansCommitted(w, n, r, b); }
    }
    if CaughtUp(w, n, a) { CommitIsFollowed(v, w, n, r, a); }
  }

  // ----- Total order -----

  /** `v` commits slot `r` through a round that `w` has caught up with. */
  ghost predicate Followed(v: Dag, w: Dag, n: nat, r: Round)
    requires n > 0 && WellFormed(v)
  {
    exists a: Round :: CommitsThrough(v, n, r, a) && CaughtUp(w, n, a)
  }

  /** One view commits slot `r` and the other has caught up with that, or neither
      commits it. */
  ghost predicate Settled(v: Dag, w: Dag, n: nat, r: Round)
    requires n > 0 && WellFormed(v) && WellFormed(w)
  {
    || Followed(v, w, n, r)
    || Followed(w, v, n, r)
    || (!Decision(v, r, n).Direct? && !Decision(w, r, n).Direct?)
  }

  lemma CommittedAlike(v: Dag, w: Dag, n: nat, r: Round)
    requires n > 0 && WellFormed(v) && WellFormed(w) && Compatible(v, w) && LookupsAgree(v, w, n, r)
    requires Decision(v, r, n).Direct? <==> Decision(w, r, n).Direct?
    ensures SlotAlike(v, w, n, r)
  {
    if Decision(v, r, n).Direct? {
      var h := Decision(v, r, n).hash;
      DirectIsLeaderCert(v, r, n);
      DirectIsLeaderCert(w, r, n);
      UnionGrowsBoth(v, w);
      HistoryStable(v, v + w, h);
      HistoryStable(w, v + w, h);
    }
  }

  lemma FollowedAlike(v: Dag, w: Dag, n: nat, r: Round)
    requires WellFormed(v) && WellFormed(w) && Compatible(v, w) && WithinFaultBound(v + w, n)
    requires LookupsAgree(v, w, n, r) && Followed(v, w, n, r)
    ensures Decision(v, r, n).Direct? && Decision(w, r, n) == Decision(v, r, n)
  {
    var a: Round :| CommitsThrough(v, n, r, a) && CaughtUp(w, n, a);
    ThroughMeansCommitted(v, n, r, a);
    CommitIsFollowed(v, w, n, r, a);
  }

  lemma SettledAlike(v: Dag, w: Dag, n: nat, r: Round)
    requires WellFormed(v) && WellFormed(w) && Compatible(v, w) && WithinFaultBound(v + w, n)
    requires LookupsAgree(v, w, n, r) && Settled(v, w, n, r)
    ensures SlotAlike(v, w, n, r)
  {
    if Followed(v, w, n, r) {
      FollowedAlike(v, w, n, r);
    } else if Followed(w, v, n, r) {
      UnionCommutes(v, w);
      FollowedAlike(w, v, n, r);
    }
    CommittedAlike(v, w, n, r);
  }

  /** Two nodes finalize the same sequence, order included, over every stretch of
      slots that either both leave uncommitted or one commits, by whichever rule,
      through a round the other has caught up with. */
  lemma TotalOrderAgreement(v: Dag, w: Dag, n: nat, k: nat)
    requires WellFormed(v) && WellFormed(w) && Compatible(v, w) && WithinFaultBound(v + w, n)
    requires forall r: Round | r < k :: LookupsAgree(v, w, n, r) && Settled(v, w, n, r)
    ensures FinalizedBelow(v, n, k) == FinalizedBelow(w, n, k)
  {
    forall r: Round | r < k ensures SlotAlike(v, w, n, r) {
      SettledAlike(v, w, n, r);
    }
    SameSlotsSameOutput(v, w, n, k);
  }

  /** Whatever the two have decided, they finalize the same sequence up to every slot
      boundary exactly when no slot that only one of them commits adds anything;
      by `UnfollowedIsBehind` the other has then not caught up. */
  lemma SameOrderIff(v: Dag, w: Dag, n: nat, k: nat)
    requires n > 0 && WellFormed(v) && WellFormed(w) && Compatible(v, w)
    requires forall r: Round | r < k :: LookupsAgree(v, w, n, r)
    ensures SameUpTo(v, w, n, k)
       <==> forall r: Round | r < k :: LoneAddsNothing(v, w, n, FinalizedBelow(v, n, r), r)
  {
    forall r: Round | r < k ensures SharedAlike(v, w, n, r) {
      if Decision(v, r, n).Direct? && Decision(w, r, n).Direct? { CommittedAlike(v, w, n, r); }
    }
    SameBoundariesIff(v, w, n, k);
    assert forall r: Round :: LoneTest(v, w, n)(r) == LoneAddsNothing(v, w, n, FinalizedBelow(v, n, r), r);
  }

  /** That common sequence is a prefix of both nodes' outputs. */
  lemma OutputsSharePrefix(v: Dag, w: Dag, n: nat, k: nat)
    requires WellFormed(v) && WellFormed(w) && Compatible(v, w) && WithinFaultBound(v + w, n)
    requires forall r: Round | r < k :: LookupsAgree(v, w, n, r) && Settled(v, w, n, r)
    ensures FinalizedBelow(v, n, k) == FinalizedBelow(w, n, k)
    ensures IsPrefix(FinalizedBelow(v, n, k), Finalized(v, n))
    ensures IsPrefix(FinalizedBelow(v, n, k), Finalized(w, n))
  {
    TotalOrderAgreement(v, w, n, k);
    OutputPrefix(v, n, k);
    OutputPrefix(w, n, k);
  }

  /** A view in which a slot is open has no anchor two or more rounds above it,
      so at most the next slot can be committed there. */
  lemma OpenSlotIsNearTheTop(w: Dag, n: nat, r: Round, s: Round)
    requires n > 0 && WellFormed(w)
    requires Decision(w, r, n) == Undecided && s >= r + 2
    ensures !Decision(w, s, n).Direct?
  {
    forall a: Round | a >= r + 2 ensures !DirectDecision(w, a, n).Direct? {
      if IsAnchor(w, r, a, n) { AnchorMeansDecided(w, r, a, n); }
    }
    assert forall a: Round | IsAnchor(w, s, a, n) :: a >= r + 2;
  }

  // ----- One node ahead of another -----

  /** `w` has caught up with every round that `v` decided directly. */
  ghost predicate Ahead(v: Dag, w: Dag, n: nat)
    requires n > 0
  {
    forall a: Round | DirectDecision(v, a, n).Direct? :: CaughtUp(w, n, a)
  }

  /** Only the last two rounds that `v` may have decided directly matter. */
  lemma AheadIff(v: Dag, w: Dag, n: nat, top: Round)
    requires n > 0 && DirectDecision(v, top, n).Direct?
    requires forall a: Round | DirectDecision(v, a, n).Direct? :: a <= top
    ensures Ahead(v, w, n)
       <==> forall a: Round | a + 1 >= top && DirectDecision(v, a, n).Direct? :: CaughtUp(w, n, a)
  {
    if CaughtUp(w, n, top) {
      var b: Round :| (b == top || b >= top + 2) && DirectDecision(w, b, n).Direct?;
      forall a: Round | a + 1 < top && DirectDecision(v, a, n).Direct? ensures CaughtUp(w, n, a) {
        assert b >= a + 2;
      }
    }
  }

  /** The leader lookups agree wherever `v` commits. */
  ghost predicate CommitsLookedUp(v: Dag, w: Dag, n: nat)
    requires n > 0 && WellFormed(v)
  {
    forall r: Round | Decision(v, r, n).Direct? :: LookupsAgree(v, w, n, r)
  }

  /** A node that is ahead has committed everything the other has, alike. */
  lemma AheadKeeps(v: Dag, w: Dag, n: nat)
    requires WellFormed(v) && WellFormed(w) && Compatible(v, w) && WithinFaultBound(v + w, n)
    requires Ahead(v, w, n) && CommitsLookedUp(v, w, n)
    ensures Keeps(v, w, n)
  {
    forall r: Round | Decision(v, r, n).Direct? ensures SlotAlike(v, w, n, r) {
      var a := CommittedThrough(v, n, r);
      assert CaughtUp(w, n, a);
      assert Settled(v, w, n, r);
      SettledAlike(v, w, n, r);
    }
  }

  /** So it has finalized everything the other has; and the other's output is a
      prefix of its own exactly when every slot that it alone commits, behind the
      other's front, puts out what the other has next. */
  lemma OrderAgreementIff(v: Dag, w: Dag, n: nat)
    requires WellFormed(v) && WellFormed(w) && Compatible(v, w) && WithinFaultBound(v + w, n)
    requires Ahead(v, w, n) && CommitsLookedUp(v, w, n)
    ensures forall x | x in Finalized(v, n) :: x in Finalized(w, n)
    ensures IsPrefix(Finalized(v, n), Finalized(w, n))
       <==> forall r: Round | Interjects(v, w, n, r) :: ContinuesOld(v, w, n, r)
  {
    AheadKeeps(v, w, n);
    KeptSetGrows(v, w, n);
    PrefixIff(v, w, n);
  }

  /** Two nodes that are each ahead of the other finalize the same sequence. */
  lemma EvenNodesFinalizeAlike(v: Dag, w: Dag, n: nat)
    requires WellFormed(v) && WellFormed(w) && Compatible(v, w) && WithinFaultBound(v + w, n)
    requires Ahead(v, w, n) && Ahead(w, v, n) && CommitsLookedUp(v, w, n) && CommitsLookedUp(w, v, n)
    ensures Finalized(v, n) == Finalized(w, n)
  {
    AheadKeeps(v, w, n);
    UnionCommutes(v, w);
    AheadKeeps(w, v, n);
    KeptBothWays(v, w, n);
  }
}
