/** The finalized sequence: its shape, what it contains, and what growth of the
    DAG does to it. */
module FinalizedOrder {
  import opened Sets
  import opened Certs
  import opened Causality
  import opened DagStores
  import opened Commit
  import opened Finality

  ghost predicate IsPrefix<T>(s: seq<T>, t: seq<T>)
  {
    s <= t
  }

  /** Appending what is new repeats nothing. */
  lemma {:induction false} FreshNeverRepeats(s: seq<CertHash>, prior: seq<CertHash>)
    requires NoDup(s) && NoDup(prior)
    ensures NoDup(WithFresh(prior, s))
  {
    FreshNoDup(s, prior);
    FreshMembers(s, prior);
    var f := Fresh(s, prior);
    forall i, j | 0 <= i < j < |prior + f| ensures (prior + f)[i] != (prior + f)[j] {
      if i < |prior| <= j { assert f[j - |prior|] in f; }
    }
  }

  lemma {:induction false} FreshNoDup(s: seq<CertHash>, prior: seq<CertHash>)
    requires NoDup(s)
    ensures NoDup(Fresh(s, prior))
  {
    if s != [] {
      FreshNoDup(s[..|s| - 1], prior);
      FreshMembers(s[..|s| - 1], prior);
      assert s[|s| - 1] !in s[..|s| - 1];
    }
  }

  /** Dropping what is already listed keeps parents first. */
  lemma {:induction false} FreshParentsFirst(d: Dag, s: seq<CertHash>, prior: seq<CertHash>)
    requires WellFormed(d) && ParentsFirst(d, s) && ParentsFirst(d, prior)
    ensures ParentsFirst(d, WithFresh(prior, s))
    decreases |s|
  {
    if s != [] {
      var init, x := s[..|s| - 1], s[|s| - 1];
      assert forall j | 0 <= j < |init| :: init[j] == s[j] && init[..j] == s[..j];
      FreshParentsFirst(d, init, prior);
      FreshMembers(init, prior);
      var before, after := WithFresh(prior, init), WithFresh(prior, s);
      assert forall y :: y in init ==> y in before;
      if x !in prior {
        assert after == before + [x];
        forall j, p | 0 <= j < |after| && after[j] in d && p in d[after[j]].parents ensures p in after[..j] {
          if j < |before| {
            assert after[..j] == before[..j];
          } else {
            assert s[..|s| - 1] == init && p in init;
            assert after[..j] == before;
          }
        }
      }
    } else {
      assert WithFresh(prior, s) == prior;
    }
  }

  /** No repeats, and every certificate after all of its parents. */
  lemma {:induction false} FinalizedWellOrdered(d: Dag, n: nat, k: nat)
    requires n > 0 && WellFormed(d)
    ensures NoDup(FinalizedBelow(d, n, k)) && ParentsFirst(d, FinalizedBelow(d, n, k))
  {
    if k > 0 {
      var r: Round := k - 1;
      FinalizedWellOrdered(d, n, r);
      SlotWellOrdered(d, n, FinalizedBelow(d, n, r), r);
      FinalizedStep(d, n, r, k);
    }
  }

  lemma SlotWellOrdered(d: Dag, n: nat, before: seq<CertHash>, r: Round)
    requires n > 0 && WellFormed(d) && NoDup(before) && ParentsFirst(d, before)
    ensures NoDup(WithSlot(d, n, before, r)) && ParentsFirst(d, WithSlot(d, n, before, r))
  {
    if Decision(d, r, n).Direct? {
      var h := Decision(d, r, n).hash;
      DirectIsLeaderCert(d, r, n);
      HistoryShape(d, h);
      FreshNeverRepeats(History(d, h), before);
      FreshParentsFirst(d, History(d, h), before);
    }
  }

  /** A certificate is in the causal history of a leader committed below `k`. */
  ghost predicate CommittedBelow(d: Dag, n: nat, k: nat, x: CertHash)
    requires n > 0 && WellFormed(d)
  {
    exists r: Round :: r < k && SlotCommits(d, n, r, x)
  }

  /** The finalized certificates are exactly the ancestors of committed leaders. */
  lemma {:induction false} FinalizedExactly(d: Dag, n: nat, k: nat)
    requires n > 0 && WellFormed(d)
    ensures forall x :: x in FinalizedBelow(d, n, k) <==> CommittedBelow(d, n, k, x)
  {
    if k > 0 {
      var r: Round := k - 1;
      FinalizedExactly(d, n, r);
      FinalizedStep(d, n, r, k);
      forall x ensures x in FinalizedBelow(d, n, k) <==> CommittedBelow(d, n, k, x) {
        CommittedBelowStep(d, n, r, k, x);
        SlotMembers(d, n, FinalizedBelow(d, n, r), r, x);
      }
    }
  }

  /** Slot `r` commits a leader with `x` in its causal history. */
  ghost predicate SlotCommits(d: Dag, n: nat, r: Round, x: CertHash)
    requires n > 0 && WellFormed(d)
  {
    Decision(d, r, n).Direct? && Decision(d, r, n).hash in d && x in Ancestors(d, Decision(d, r, n).hash)
  }

  lemma SlotMembers(d: Dag, n: nat, before: seq<CertHash>, r: Round, x: CertHash)
    requires n > 0 && WellFormed(d)
    ensures x in WithSlot(d, n, before, r) <==> x in before || SlotCommits(d, n, r, x)
  {
    if Decision(d, r, n).Direct? {
      DirectIsLeaderCert(d, r, n);
      FreshMembers(History(d, Decision(d, r, n).hash), before);
    }
  }

  lemma CommittedBelowStep(d: Dag, n: nat, r: Round, k: nat, x: CertHash)
    requires n > 0 && WellFormed(d) && k == r + 1
    ensures CommittedBelow(d, n, k, x) <==> CommittedBelow(d, n, r, x) || SlotCommits(d, n, r, x)
  {
  }

  /** Going on past the last round changes nothing, so the exclusive loop bound
      of `finalize` loses nothing. */
  lemma {:induction false} FinalizedSaturates(d: Dag, n: nat, k: nat)
    requires n > 0 && WellFormed(d)
    requires MaxRound(d).Some? ==> MaxRound(d).value <= k
    ensures FinalizedBelow(d, n, k) == Finalized(d, n)
    decreases k
  {
    if k > 0 && (MaxRound(d).None? || MaxRound(d).value < k) {
      var r: Round := k - 1;
      NoDecisionBeyondMax(d, r, n);
      FinalizedSaturates(d, n, r);
      FinalizedStep(d, n, r, k);
      OpenSlotAddsNothing(d, n, FinalizedBelow(d, n, r), r);
    }
  }

  /** The three properties of `finalize` together. */
  lemma FinalizeCorrect(d: Dag, n: nat)
    requires n > 0 && WellFormed(d)
    ensures NoDup(Finalized(d, n)) && ParentsFirst(d, Finalized(d, n))
    ensures forall x :: x in Finalized(d, n) <==> exists r: Round :: SlotCommits(d, n, r, x)
  {
    var k := match MaxRound(d) case None => 0 case Some(m) => m;
    FinalizedWellOrdered(d, n, k);
    FinalizedExactly(d, n, k);
    forall r: Round | Decision(d, r, n).Direct? ensures r < k {
      if r >= k { NoDecisionBeyondMax(d, r, n); }
    }
    assert Finalized(d, n) == FinalizedBelow(d, n, k);
  }

  lemma {:induction false} BelowIsPrefix(d: Dag, n: nat, j: nat, k: nat)
    requires n > 0 && WellFormed(d) && j <= k
    ensures IsPrefix(FinalizedBelow(d, n, j), FinalizedBelow(d, n, k))
    decreases k
  {
    if j < k {
      BelowIsPrefix(d, n, j, k - 1);
      if Decision(d, k - 1, n).Direct? {
        var h := Decision(d, k - 1, n).hash;
        assert IsPrefix(FinalizedBelow(d, n, k - 1), WithFresh(FinalizedBelow(d, n, k - 1), History(d, h)));
      }
    }
  }

  /** What the slots below any `k` produced is a prefix of the output. */
  lemma OutputPrefix(d: Dag, n: nat, k: nat)
    requires n > 0 && WellFormed(d)
    ensures IsPrefix(FinalizedBelow(d, n, k), Finalized(d, n))
  {
    var m := match MaxRound(d) case None => 0 case Some(m) => m;
    var top := if m < k then k else m;
    BelowIsPrefix(d, n, k, top);
    FinalizedSaturates(d, n, top);
  }

  // ----- Growth -----

  /** Slot `r` is committed in the extension but was not before. */
  ghost predicate NewlyDirect(d: Dag, e: Dag, r: Round, n: nat)
    requires n > 0 && WellFormed(d) && WellFormed(e)
  {
    Decision(e, r, n).Direct? && !Decision(d, r, n).Direct?
  }

  /** Everything the newly committed slot would add was finalized before it. */
  ghost predicate AddsNothing(e: Dag, prior: seq<CertHash>, r: Round, n: nat)
    requires n > 0 && WellFormed(e)
  {
    Decision(e, r, n).Direct? ==> Fresh(History(e, Decision(e, r, n).hash), prior) == []
  }

  /** Every slot that `d` commits is committed by `e`, to the same certificate with
      the same history. */
  ghost predicate Keeps(d: Dag, e: Dag, n: nat)
    requires n > 0 && WellFormed(d) && WellFormed(e)
  {
    forall r: Round | Decision(d, r, n).Direct? :: SlotAlike(d, e, n, r)
  }

  lemma GrowthKeeps(d: Dag, e: Dag, n: nat)
    requires n > 0 && Grows(d, e) && LeadersStable(d, e, n)
    ensures Keeps(d, e, n)
  {
    forall r: Round | Decision(d, r, n).Direct? ensures SlotAlike(d, e, n, r) {
      OldSlotAlike(d, e, n, r);
    }
  }

  lemma OldSlotAlike(d: Dag, e: Dag, n: nat, r: Round)
    requires n > 0 && Grows(d, e) && LeadersStable(d, e, n) && !NewlyDirect(d, e, r, n)
    ensures SlotAlike(d, e, n, r)
  {
    DecisionsClimb(d, e, r, n);
    if Decision(d, r, n).Direct? {
      DirectIsLeaderCert(d, r, n);
      HistoryStable(d, e, Decision(d, r, n).hash);
    }
  }

  lemma KeptSlotCommits(d: Dag, e: Dag, n: nat, r: Round, x: CertHash)
    requires n > 0 && WellFormed(d) && WellFormed(e) && Keeps(d, e, n) && SlotCommits(d, n, r, x)
    ensures SlotCommits(e, n, r, x)
  {
    var h := Decision(d, r, n).hash;
    assert SlotAlike(d, e, n, r);
    DirectIsLeaderCert(e, r, n);
    assert x in History(d, h) && x in History(e, h);
  }

  /** The finalized set never shrinks, slot boundary by slot boundary. */
  lemma BelowSetGrows(d: Dag, e: Dag, n: nat, k: nat)
    requires n > 0 && WellFormed(d) && WellFormed(e) && Keeps(d, e, n)
    ensures forall x | x in FinalizedBelow(d, n, k) :: x in FinalizedBelow(e, n, k)
  {
    FinalizedExactly(d, n, k);
    FinalizedExactly(e, n, k);
    forall x | x in FinalizedBelow(d, n, k) ensures x in FinalizedBelow(e, n, k) {
      var r: Round :| r < k && SlotCommits(d, n, r, x);
      KeptSlotCommits(d, e, n, r, x);
    }
  }

  lemma FinalizedSetGrows(d: Dag, e: Dag, n: nat)
    requires n > 0 && Grows(d, e) && LeadersStable(d, e, n)
    ensures forall x | x in Finalized(d, n) :: x in Finalized(e, n)
  {
    GrowthKeeps(d, e, n);
    KeptSetGrows(d, e, n);
  }

  lemma KeptSetGrows(d: Dag, e: Dag, n: nat)
    requires n > 0 && WellFormed(d) && WellFormed(e) && Keeps(d, e, n)
    ensures forall x | x in Finalized(d, n) :: x in Finalized(e, n)
  {
    var m := match MaxRound(d) case None => 0 case Some(m) => m;
    BelowSetGrows(d, e, n, m);
    OutputPrefix(e, n, m);
    FinalizedSaturates(d, n, m);
  }

  /** Below the first newly committed slot the two finalized sequences agree. */
  lemma SharedBelowFirstNew(d: Dag, e: Dag, n: nat, k: nat)
    requires n > 0 && Grows(d, e) && LeadersStable(d, e, n)
    requires forall r: Round | r < k :: !NewlyDirect(d, e, r, n)
    ensures FinalizedBelow(d, n, k) == FinalizedBelow(e, n, k)
  {
    forall r: Round | r < k ensures SlotAlike(d, e, n, r) {
      OldSlotAlike(d, e, n, r);
    }
    SameSlotsSameOutput(d, e, n, k);
  }

  /** So `finalize` of the extension starts with that shared part, and with the
      whole old output when no slot of the old DAG became committed. */
  lemma FinalizeSharesPrefix(d: Dag, e: Dag, n: nat, k: nat)
    requires n > 0 && Grows(d, e) && LeadersStable(d, e, n)
    requires forall r: Round | r < k :: !NewlyDirect(d, e, r, n)
    ensures IsPrefix(FinalizedBelow(d, n, k), Finalized(e, n))
    ensures MaxRound(d).Some? && MaxRound(d).value <= k ==> IsPrefix(Finalized(d, n), Finalized(e, n))
  {
    SharedBelowFirstNew(d, e, n, k);
    var m := match MaxRound(e) case None => 0 case Some(m) => m;
    var top := if m < k then k else m;
    BelowIsPrefix(e, n, k, top);
    FinalizedSaturates(e, n, top);
    if MaxRound(d).Some? && MaxRound(d).value <= k {
      FinalizedSaturates(d, n, k);
    }
  }

  /** At every slot boundary up to `k` the two finalized sequences agree. */
  ghost predicate SameUpTo(d: Dag, e: Dag, n: nat, k: nat)
    requires n > 0 && WellFormed(d) && WellFormed(e)
  {
    forall j: nat | j <= k :: FinalizedBelow(d, n, j) == FinalizedBelow(e, n, j)
  }

  /** Where both commit slot `r` they commit it alike. */
  ghost predicate SharedAlike(d: Dag, e: Dag, n: nat, r: Round)
    requires n > 0 && WellFormed(d) && WellFormed(e)
  {
    Decision(d, r, n).Direct? && Decision(e, r, n).Direct? ==> SlotAlike(d, e, n, r)
  }

  /** If only one of the two commits slot `r`, that adds nothing to `before`. */
  ghost predicate LoneAddsNothing(d: Dag, e: Dag, n: nat, before: seq<CertHash>, r: Round)
    requires n > 0 && WellFormed(d) && WellFormed(e)
  {
    && (NewlyDirect(d, e, r, n) ==> AddsNothing(e, before, r, n))
    && (NewlyDirect(e, d, r, n) ==> AddsNothing(d, before, r, n))
  }

  ghost function LoneTest(d: Dag, e: Dag, n: nat): Round -> bool
    requires n > 0 && WellFormed(d) && WellFormed(e)
  {
    (r: Round) => LoneAddsNothing(d, e, n, FinalizedBelow(d, n, r), r)
  }

  ghost predicate AllBelow(test: Round -> bool, k: nat)
  {
    forall r: Round | r < k :: test(r)
  }

  lemma AllBelowStep(test: Round -> bool, last: Round, k: nat)
    requires k == last + 1
    ensures AllBelow(test, k) <==> AllBelow(test, last) && test(last)
  {
  }

  /** Two outputs agree at every slot boundary exactly when no slot that only one of
      them commits brings anything new. */
  lemma {:induction false} SameBoundariesIff(d: Dag, e: Dag, n: nat, k: nat)
    requires n > 0 && WellFormed(d) && WellFormed(e) && forall r: Round | r < k :: SharedAlike(d, e, n, r)
    ensures SameUpTo(d, e, n, k) <==> AllBelow(LoneTest(d, e, n), k)
  {
    if k > 0 {
      var last: Round := k - 1;
      SameBoundariesIff(d, e, n, last);
      BoundaryStep(d, e, n, last, k);
      SameUpToStep(d, e, n, last, k);
      AllBelowStep(LoneTest(d, e, n), last, k);
    } else {
      assert FinalizedBelow(d, n, 0) == FinalizedBelow(e, n, 0);
    }
  }

  lemma SameUpToStep(d: Dag, e: Dag, n: nat, last: Round, k: nat)
    requires n > 0 && WellFormed(d) && WellFormed(e) && k == last + 1
    ensures SameUpTo(d, e, n, k) <==> SameUpTo(d, e, n, last) && FinalizedBelow(d, n, k) == FinalizedBelow(e, n, k)
    ensures SameUpTo(d, e, n, last) ==> FinalizedBelow(d, n, last) == FinalizedBelow(e, n, last)
  {
  }

  lemma SlotStandsStill(e: Dag, n: nat, before: seq<CertHash>, r: Round)
    requires n > 0 && WellFormed(e) && Decision(e, r, n).Direct?
    ensures WithSlot(e, n, before, r) == before <==> AddsNothing(e, before, r, n)
  {
    var history := History(e, Decision(e, r, n).hash);
    assert |WithFresh(before, history)| == |before| + |Fresh(history, before)|;
  }

  lemma BoundaryStep(d: Dag, e: Dag, n: nat, r: Round, k: nat)
    requires n > 0 && WellFormed(d) && WellFormed(e) && SharedAlike(d, e, n, r) && k == r + 1
    ensures FinalizedBelow(d, n, r) == FinalizedBelow(e, n, r) ==>
              (FinalizedBelow(d, n, k) == FinalizedBelow(e, n, k)
               <==> LoneAddsNothing(d, e, n, FinalizedBelow(d, n, r), r))
  {
    var before := FinalizedBelow(d, n, r);
    FinalizedStep(d, n, r, k);
    FinalizedStep(e, n, r, k);
    if FinalizedBelow(e, n, r) == before {
      SlotStep(d, e, n, before, r);
    }
  }

  lemma SlotStep(d: Dag, e: Dag, n: nat, before: seq<CertHash>, r: Round)
    requires n > 0 && WellFormed(d) && WellFormed(e) && SharedAlike(d, e, n, r)
    ensures WithSlot(d, n, before, r) == WithSlot(e, n, before, r) <==> LoneAddsNothing(d, e, n, before, r)
  {
    if Decision(d, r, n).Direct? && Decision(e, r, n).Direct? {
      SlotAddsAlike(d, e, n, before, r);
    } else if Decision(d, r, n).Direct? {
      SlotStandsStill(d, n, before, r);
    } else if Decision(e, r, n).Direct? {
      SlotStandsStill(e, n, before, r);
    }
  }

  /** Under growth nothing moves at any slot boundary exactly when every newly
      committed slot brings nothing that was not already finalized there. */
  lemma BoundariesKeptIff(d: Dag, e: Dag, n: nat, k: nat)
    requires n > 0 && Grows(d, e) && LeadersStable(d, e, n)
    ensures SameUpTo(d, e, n, k)
       <==> (forall r: Round | r < k && NewlyDirect(d, e, r, n) :: AddsNothing(e, FinalizedBelow(d, n, r), r, n))
  {
    GrowthKeeps(d, e, n);
    forall r: Round ensures SharedAlike(d, e, n, r) && !NewlyDirect(e, d, r, n) {
      if Decision(d, r, n).Direct? { assert SlotAlike(d, e, n, r); }
    }
    SameBoundariesIff(d, e, n, k);
    assert forall r: Round | NewlyDirect(d, e, r, n) ::
        LoneTest(d, e, n)(r) <==> AddsNothing(e, FinalizedBelow(d, n, r), r, n);
  }

  // ----- When the output is append-only -----

  ghost predicate Comparable<T>(s: seq<T>, t: seq<T>)
  {
    IsPrefix(s, t) || IsPrefix(t, s)
  }

  lemma {:induction false} FreshOfFresh(s: seq<CertHash>, p: seq<CertHash>, q: seq<CertHash>)
    requires forall x | x in p :: x in q
    ensures Fresh(s, q) == Fresh(Fresh(s, p), q)
  {
    if s != [] {
      var init, x := s[..|s| - 1], s[|s| - 1];
      FreshOfFresh(init, p, q);
      if x !in p {
        assert (Fresh(init, p) + [x])[..|Fresh(init, p)|] == Fresh(init, p);
      }
    }
  }

  lemma {:induction false} FreshOfKnown(s: seq<CertHash>, t: seq<CertHash>, prior: seq<CertHash>)
    requires (forall x | x in s :: x in prior) && forall x | x in t :: x !in prior
    ensures Fresh(s + t, prior) == t
    decreases |t|, |s|
  {
    if t != [] {
      var init := t[..|t| - 1];
      assert (s + t)[..|s + t| - 1] == s + init;
      FreshOfKnown(s, init, prior);
      assert t == init + [t[|t| - 1]];
    } else if s != [] {
      assert s + t == s;
      FreshOfKnown(s[..|s| - 1], [], prior);
      assert s[..|s| - 1] + [] == s[..|s| - 1];
    }
  }

  lemma ShorterFirst(all: seq<CertHash>, p: seq<CertHash>, q: seq<CertHash>)
    requires NoDup(all) && IsPrefix(p, all) && IsPrefix(q, all) && forall x | x in p :: x in q
    ensures |p| <= |q| && IsPrefix(p, q)
  {
    NoDupSize(p);
    NoDupSize(q);
    SubsetSize(Elems(p), Elems(q));
  }

  /** A slot that both outputs take, one after `p` and one after the larger `q`,
      keeps the second comparable with everything the first becomes. */
  lemma SharedSlotKeeps(p: seq<CertHash>, q: seq<CertHash>, h: seq<CertHash>, all: seq<CertHash>)
    requires NoDup(all) && IsPrefix(WithFresh(p, h), all) && (forall x | x in p :: x in q) && Comparable(q, all)
    ensures Comparable(WithFresh(q, h), all)
  {
    if IsPrefix(q, all) {
      var g := Fresh(h, p);
      assert IsPrefix(p, all);
      ShorterFirst(all, p, q);
      FreshOfFresh(h, p, q);
      FreshOfPiece(p, q, g, all);
    }
  }

  lemma FreshOfPiece(p: seq<CertHash>, q: seq<CertHash>, g: seq<CertHash>, all: seq<CertHash>)
    requires NoDup(all) && IsPrefix(p + g, all) && IsPrefix(q, all) && IsPrefix(p, q)
    ensures Comparable(q + Fresh(g, q), all)
  {
    if |p| + |g| <= |q| {
      FreshInside(p, q, g, all);
    } else {
      FreshBeyond(p, q, g, all);
    }
  }

  lemma FreshInside(p: seq<CertHash>, q: seq<CertHash>, g: seq<CertHash>, all: seq<CertHash>)
    requires IsPrefix(p + g, all) && IsPrefix(q, all) && |p| + |g| <= |q|
    ensures q + Fresh(g, q) == q
  {
    forall x | x in g ensures x in q {
      var i :| 0 <= i < |g| && g[i] == x;
      assert (p + g)[|p| + i] == x && q[|p| + i] == all[|p| + i];
    }
    FreshOfKnown(g, [], q);
    assert g + [] == g;
  }

  lemma FreshBeyond(p: seq<CertHash>, q: seq<CertHash>, g: seq<CertHash>, all: seq<CertHash>)
    requires NoDup(all) && IsPrefix(p + g, all) && IsPrefix(q, all) && IsPrefix(p, q) && |q| < |p| + |g|
    ensures q + Fresh(g, q) == p + g
  {
    var cut := |q| - |p|;
    var known, rest := g[..cut], g[cut..];
    CutAt(p, q, g, all);
    LaterIsOther(q, rest, all);
    FreshOfKnown(known, rest, q);
    assert g == known + rest;
  }

  lemma CutAt(p: seq<CertHash>, q: seq<CertHash>, g: seq<CertHash>, all: seq<CertHash>)
    requires IsPrefix(p + g, all) && IsPrefix(q, all) && |p| <= |q| < |p| + |g|
    ensures q == p + g[..|q| - |p|] && q + g[|q| - |p|..] == p + g
  {
    assert p + g == all[..|p| + |g|] && q == all[..|q|];
    assert q == (p + g)[..|q|];
  }

  lemma LaterIsOther(q: seq<CertHash>, rest: seq<CertHash>, all: seq<CertHash>)
    requires NoDup(all) && IsPrefix(q + rest, all)
    ensures forall x | x in rest :: x !in q
  {
    forall x | x in rest ensures x !in q {
      var i :| 0 <= i < |rest| && rest[i] == x;
      assert (q + rest)[|q| + i] == all[|q| + i] == x;
      assert forall j | 0 <= j < |q| :: q[j] == (q + rest)[j] == all[j] != x;
    }
  }

  /** A slot above `r` is committed. */
  ghost predicate LaterCommit(d: Dag, n: nat, r: Round)
    requires n > 0 && WellFormed(d)
  {
    exists s: Round :: s > r && Decision(d, s, n).Direct?
  }

  /** Slot `r` is newly committed although `d` had already committed a later one. */
  ghost predicate Interjects(d: Dag, e: Dag, n: nat, r: Round)
    requires n > 0 && WellFormed(d) && WellFormed(e)
  {
    NewlyDirect(d, e, r, n) && LaterCommit(d, n, r)
  }

  /** What the extension has put out through slot `r` continues, or stays inside,
      the old output. */
  ghost predicate ContinuesOld(d: Dag, e: Dag, n: nat, r: Round)
    requires n > 0 && WellFormed(d) && WellFormed(e)
  {
    Comparable(WithSlot(e, n, FinalizedBelow(e, n, r), r), Finalized(d, n))
  }

  /** `k` is just past the last slot `d` has committed. */
  ghost predicate FrontAt(d: Dag, n: nat, k: nat)
    requires n > 0 && WellFormed(d)
  {
    && FinalizedBelow(d, n, k) == Finalized(d, n)
    && forall r: Round | r < k && !Decision(d, r, n).Direct? :: LaterCommit(d, n, r)
  }

  lemma {:induction false} FindFront(d: Dag, n: nat, m: nat) returns (k: nat)
    requires n > 0 && WellFormed(d) && FinalizedBelow(d, n, m) == Finalized(d, n)
    ensures FrontAt(d, n, k)
    decreases m
  {
    k := m;
    if m > 0 {
      var last: Round := m - 1;
      if Decision(d, last, n).Direct? {
        assert forall r: Round | r < m && !Decision(d, r, n).Direct? :: r < last && LaterCommit(d, n, r);
      } else {
        FinalizedStep(d, n, last, m);
        OpenSlotAddsNothing(d, n, FinalizedBelow(d, n, last), last);
        k := FindFront(d, n, last);
      }
    }
  }

  /** Slot `r` puts out what the old output had next, or nothing. */
  ghost predicate Harmless(d: Dag, e: Dag, n: nat, r: Round)
    requires n > 0 && WellFormed(d) && WellFormed(e)
  {
    ContinuesOld(d, e, n, r) || AddsNothing(e, FinalizedBelow(e, n, r), r, n)
  }

  lemma OldSlotContinues(d: Dag, e: Dag, n: nat, r: Round, k: nat)
    requires n > 0 && WellFormed(d) && WellFormed(e) && Keeps(d, e, n) && r < k && Decision(d, r, n).Direct?
    requires FinalizedBelow(d, n, k) == Finalized(d, n) && Comparable(FinalizedBelow(e, n, r), Finalized(d, n))
    ensures ContinuesOld(d, e, n, r)
  {
    assert SlotAlike(d, e, n, r);
    OldSlotInside(d, n, r, k);
    BelowSetGrows(d, e, n, r);
    FinalizedWellOrdered(d, n, k);
    SharedSlotKeeps(FinalizedBelow(d, n, r), FinalizedBelow(e, n, r),
                    History(d, Decision(d, r, n).hash), Finalized(d, n));
  }

  lemma OldSlotInside(d: Dag, n: nat, r: Round, k: nat)
    requires n > 0 && WellFormed(d) && r < k && Decision(d, r, n).Direct?
    ensures IsPrefix(WithFresh(FinalizedBelow(d, n, r), History(d, Decision(d, r, n).hash)), FinalizedBelow(d, n, k))
  {
    var next: nat := r + 1;
    BelowIsPrefix(d, n, next, k);
    FinalizedStep(d, n, r, next);
  }

  /** One slot keeps the extension's output comparable with the old one unless it
      interjects something the old output does not have next. */
  lemma SlotKeepsComparable(d: Dag, e: Dag, n: nat, r: Round, k: nat)
    requires n > 0 && WellFormed(d) && WellFormed(e) && Keeps(d, e, n)
    requires r < k && FrontAt(d, n, k) && Comparable(FinalizedBelow(e, n, r), Finalized(d, n))
    requires Interjects(d, e, n, r) ==> Harmless(d, e, n, r)
    ensures ContinuesOld(d, e, n, r)
  {
    if Decision(d, r, n).Direct? {
      OldSlotContinues(d, e, n, r, k);
    } else if Decision(e, r, n).Direct? {
      assert Interjects(d, e, n, r);
    }
  }

  lemma {:induction false} StaysComparable(d: Dag, e: Dag, n: nat, j: nat, k: nat)
    requires n > 0 && WellFormed(d) && WellFormed(e) && Keeps(d, e, n) && j <= k && FrontAt(d, n, k)
    requires forall r: Round | Interjects(d, e, n, r) :: Harmless(d, e, n, r)
    ensures Comparable(FinalizedBelow(e, n, j), Finalized(d, n))
    decreases j
  {
    if j > 0 {
      var r: Round := j - 1;
      StaysComparable(d, e, n, r, k);
      SlotKeepsComparable(d, e, n, r, k);
      FinalizedStep(e, n, r, j);
    }
  }

  lemma PrefixSuffices(d: Dag, e: Dag, n: nat)
    requires n > 0 && WellFormed(d) && WellFormed(e) && Keeps(d, e, n)
    requires forall r: Round | Interjects(d, e, n, r) :: Harmless(d, e, n, r)
    ensures IsPrefix(Finalized(d, n), Finalized(e, n))
  {
    var m := match MaxRound(d) case None => 0 case Some(m) => m;
    FinalizedSaturates(d, n, m);
    var k := FindFront(d, n, m);
    StaysComparable(d, e, n, k, k);
    BelowSetGrows(d, e, n, k);
    FinalizedWellOrdered(d, n, k);
    OutputPrefix(e, n, k);
    if IsPrefix(FinalizedBelow(e, n, k), Finalized(d, n)) {
      ShorterFirst(Finalized(d, n), Finalized(d, n), FinalizedBelow(e, n, k));
    }
  }

  lemma PrefixContinues(d: Dag, e: Dag, n: nat, r: Round)
    requires n > 0 && WellFormed(d) && WellFormed(e) && IsPrefix(Finalized(d, n), Finalized(e, n))
    ensures ContinuesOld(d, e, n, r)
  {
    var next: nat := r + 1;
    OutputPrefix(e, n, next);
    FinalizedStep(e, n, r, next);
  }

  /** For any two DAGs, related by growth or not, one of which keeps the other's
      commits: the output of `d` is a prefix of that of `e` exactly when every slot
      that only `e` commits, behind the front of `d`, puts out what `d` had next. */
  lemma PrefixIff(d: Dag, e: Dag, n: nat)
    requires n > 0 && WellFormed(d) && WellFormed(e) && Keeps(d, e, n)
    ensures IsPrefix(Finalized(d, n), Finalized(e, n))
       <==> forall r: Round | Interjects(d, e, n, r) :: ContinuesOld(d, e, n, r)
  {
    if IsPrefix(Finalized(d, n), Finalized(e, n)) {
      forall r: Round | Interjects(d, e, n, r) ensures ContinuesOld(d, e, n, r) {
        PrefixContinues(d, e, n, r);
      }
    } else if forall r: Round | Interjects(d, e, n, r) :: ContinuesOld(d, e, n, r) {
      assert forall r: Round | Interjects(d, e, n, r) :: Harmless(d, e, n, r);
      PrefixSuffices(d, e, n);
    }
  }

  lemma KeptBothWays(d: Dag, e: Dag, n: nat)
    requires n > 0 && WellFormed(d) && WellFormed(e) && Keeps(d, e, n) && Keeps(e, d, n)
    ensures Finalized(d, n) == Finalized(e, n)
  {
    var j := match MaxRound(d) case None => 0 case Some(m) => m;
    var k := match MaxRound(e) case None => 0 case Some(m) => m;
    var top := if j < k then k else j;
    forall r: Round | r < top ensures SlotAlike(d, e, n, r) {
      if Decision(d, r, n).Direct? {
        assert SlotAlike(d, e, n, r);
      } else if Decision(e, r, n).Direct? {
        assert SlotAlike(e, d, n, r);
      }
    }
    SameSlotsSameOutput(d, e, n, top);
    FinalizedSaturates(d, n, top);
    FinalizedSaturates(e, n, top);
  }

  // ----- The same for growth -----

  /** Slots committed behind the old front that put out what the old output had
      next, or nothing at all, leave it a prefix of the new one. */
  lemma AppendOnlySuffices(d: Dag, e: Dag, n: nat)
    requires n > 0 && Grows(d, e) && LeadersStable(d, e, n)
    requires forall r: Round | Interjects(d, e, n, r) :: Harmless(d, e, n, r)
    ensures IsPrefix(Finalized(d, n), Finalized(e, n))
  {
    GrowthKeeps(d, e, n);
    PrefixSuffices(d, e, n);
  }

  /** The old output is a prefix of the new one exactly when every slot committed
      behind the old front puts out what the old output had next. */
  lemma AppendOnlyIff(d: Dag, e: Dag, n: nat)
    requires n > 0 && Grows(d, e) && LeadersStable(d, e, n)
    ensures IsPrefix(Finalized(d, n), Finalized(e, n))
       <==> forall r: Round | Interjects(d, e, n, r) :: ContinuesOld(d, e, n, r)
  {
    GrowthKeeps(d, e, n);
    PrefixIff(d, e, n);
  }

  /** In particular when nothing is committed behind the old front. */
  lemma AppendOnlyAtTheFront(d: Dag, e: Dag, n: nat)
    requires n > 0 && Grows(d, e) && LeadersStable(d, e, n)
    requires forall r: Round | NewlyDirect(d, e, r, n) :: !LaterCommit(d, n, r)
    ensures IsPrefix(Finalized(d, n), Finalized(e, n))
  {
    assert forall r: Round :: !Interjects(d, e, n, r);
    AppendOnlySuffices(d, e, n);
  }
}
