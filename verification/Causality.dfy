/** Ancestry in a certificate DAG: what "causal history" means, independently
    of the breadth-first walk that computes it. */
module Causality {
  import opened Sets
  import opened Certs

  /** `a` is `h` itself or can be reached from `h` along parent links. */
  ghost predicate Reaches(d: Dag, h: CertHash, a: CertHash)
    requires WellFormed(d) && h in d
    decreases d[h].round
  {
    a == h || exists p :: p in d[h].parents && Reaches(d, p, a)
  }

  ghost function Ancestors(d: Dag, h: CertHash): set<CertHash>
    requires WellFormed(d) && h in d
  {
    set a | a in d && Reaches(d, h, a)
  }

  /** Ancestors in linearization order; nothing for a hash the DAG lacks. */
  ghost function History(d: Dag, h: CertHash): seq<CertHash>
    requires WellFormed(d)
  {
    if h in d then Ordered(d, Ancestors(d, h)) else []
  }

  /** `s` contains the parents of each of its members. */
  ghost predicate ParentClosed(d: Dag, s: set<CertHash>)
  {
    forall x, p | x in s && x in d && p in d[x].parents :: p in s
  }

  lemma {:induction false} ReachesIsOlder(d: Dag, h: CertHash, a: CertHash)
    requires WellFormed(d) && h in d && Reaches(d, h, a)
    ensures a in d
    ensures a != h ==> d[a].round < d[h].round
    decreases d[h].round
  {
    if a != h {
      var p :| p in d[h].parents && Reaches(d, p, a);
      ReachesIsOlder(d, p, a);
    }
  }

  lemma {:induction false} ReachesTransitive(d: Dag, h: CertHash, m: CertHash, a: CertHash)
    requires WellFormed(d) && h in d && m in d
    requires Reaches(d, h, m) && Reaches(d, m, a)
    ensures Reaches(d, h, a)
    decreases d[h].round
  {
    if m != h {
      var p :| p in d[h].parents && Reaches(d, p, m);
      ReachesTransitive(d, p, m, a);
    }
  }

  lemma ReachesParent(d: Dag, h: CertHash, a: CertHash, p: CertHash)
    requires WellFormed(d) && h in d && Reaches(d, h, a)
    requires a in d && p in d[a].parents
    ensures Reaches(d, h, p)
  {
    assert Reaches(d, p, p);
    ReachesTransitive(d, h, a, p);
  }

  /** The ancestor set is parent-closed and contains the certificate itself. */
  lemma AncestorsClosed(d: Dag, h: CertHash)
    requires WellFormed(d) && h in d
    ensures h in Ancestors(d, h)
    ensures ParentClosed(d, Ancestors(d, h))
  {
    forall x, p | x in Ancestors(d, h) && p in d[x].parents ensures p in Ancestors(d, h) {
      ReachesParent(d, h, x, p);
    }
  }

  /** ... and it is the least such set. */
  lemma {:induction false} AncestorsLeast(d: Dag, h: CertHash, s: set<CertHash>)
    requires WellFormed(d) && h in d && h in s && ParentClosed(d, s)
    ensures Ancestors(d, h) <= s
  {
    forall a | a in Ancestors(d, h) ensures a in s { ReachedStaysInside(d, h, a, s); }
  }

  lemma {:induction false} ReachedStaysInside(d: Dag, h: CertHash, a: CertHash, s: set<CertHash>)
    requires WellFormed(d) && h in d && h in s && ParentClosed(d, s) && Reaches(d, h, a)
    ensures a in s
    decreases d[h].round
  {
    if a != h {
      var p :| p in d[h].parents && Reaches(d, p, a);
      ReachedStaysInside(d, p, a, s);
    }
  }

  /** Adding certificates changes neither ancestry nor histories. */
  lemma {:induction false} ReachesStable(d: Dag, e: Dag, h: CertHash, a: CertHash)
    requires WellFormed(d) && WellFormed(e) && Extends(d, e) && h in d
    ensures Reaches(d, h, a) <==> Reaches(e, h, a)
    decreases d[h].round
  {
    forall p | p in d[h].parents ensures Reaches(d, p, a) <==> Reaches(e, p, a) {
      ReachesStable(d, e, p, a);
    }
  }

  lemma AncestorsStable(d: Dag, e: Dag, h: CertHash)
    requires WellFormed(d) && WellFormed(e) && Extends(d, e) && h in d
    ensures Ancestors(d, h) == Ancestors(e, h)
  {
    forall a ensures a in Ancestors(d, h) <==> a in Ancestors(e, h) {
      ReachesStable(d, e, h, a);
      if Reaches(d, h, a) { ReachesIsOlder(d, h, a); }
    }
  }

  lemma HistoryStable(d: Dag, e: Dag, h: CertHash)
    requires WellFormed(d) && WellFormed(e) && Extends(d, e) && h in d
    ensures History(d, h) == History(e, h)
  {
    AncestorsStable(d, e, h);
    OrderedStable(d, e, Ancestors(d, h));
  }

  /** Every certificate of `s` stands after all of its parents. */
  ghost predicate ParentsFirst(d: Dag, s: seq<CertHash>)
  {
    forall j, p | 0 <= j < |s| && s[j] in d && p in d[s[j]].parents :: p in s[..j]
  }

  /** A sorted listing of a parent-closed set puts parents first. */
  lemma SortedParentsFirst(d: Dag, s: seq<CertHash>)
    requires WellFormed(d) && AllIn(d, s) && Sorted(d, s)
    requires forall x, p | x in s && p in d[x].parents :: p in s
    ensures ParentsFirst(d, s)
  {
    forall j, p | 0 <= j < |s| && p in d[s[j]].parents ensures p in s[..j] {
      assert s[j] in s;
      assert p in s;
      var i :| 0 <= i < |s| && s[i] == p;
      SortedPosition(d, s, i, j);
      assert s[..j][i] == p;
    }
  }

  lemma HistoryParentsFirst(d: Dag, h: CertHash)
    requires WellFormed(d) && h in d
    ensures ParentsFirst(d, History(d, h))
  {
    AncestorsClosed(d, h);
    SortedParentsFirst(d, History(d, h));
  }

  /** A sorted listing of a set ends at its greatest member. */
  lemma OrderedEnds(d: Dag, s: set<CertHash>, h: CertHash)
    requires s <= d.Keys && h in s
    requires forall x | x in s :: x == h || Less(d, x, h)
    ensures Ordered(d, s) != [] && Ordered(d, s)[|Ordered(d, s)| - 1] == h
  {
    GreatestIsLast(d, Ordered(d, s), h);
  }

  lemma HistoryEnds(d: Dag, h: CertHash)
    requires WellFormed(d) && h in d
    ensures History(d, h) != [] && History(d, h)[|History(d, h)| - 1] == h
  {
    AncestorsClosed(d, h);
    forall x | x in Ancestors(d, h) ensures x == h || Less(d, x, h) {
      ReachesIsOlder(d, h, x);
    }
    OrderedEnds(d, Ancestors(d, h), h);
  }

  /** A history has no repeats, lists parents first and ends at its start. */
  lemma HistoryShape(d: Dag, h: CertHash)
    requires WellFormed(d) && h in d
    ensures NoDup(History(d, h)) && ParentsFirst(d, History(d, h))
    ensures History(d, h) != [] && History(d, h)[|History(d, h)| - 1] == h
  {
    SortedNoDup(d, Ordered(d, Ancestors(d, h)));
    HistoryParentsFirst(d, h);
    HistoryEnds(d, h);
  }
}
