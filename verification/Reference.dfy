/** The linearize-based reference forms (the `equivalence` module inside
    commit.rs).  They never touch the by-round index: each walks the whole
    linearization.  Every one of them equals the indexed production form on
    every well-formed DAG, equivocating ones included. */
module Reference {
  import opened Sets
  import opened Certs
  import opened Causality
  import opened DagStores
  import opened Commit

  /** First hash of the list at this round and author. */
  function FindSlot(d: Dag, s: seq<CertHash>, r: Round, a: AuthorityId): Option<CertHash>
    requires AllIn(d, s)
  {
    if s == [] then None
    else if d[s[0]].round == r && d[s[0]].author == a then Some(s[0])
    else FindSlot(d, s[1..], r, a)
  }

  ghost function CertAtReference(d: Dag, r: Round, a: AuthorityId): Option<CertHash>
  {
    FindSlot(d, Linearization(d), r, a)
  }

  function CollectSupporters(d: Dag, s: seq<CertHash>, target: CertHash, r: Round): set<AuthorityId>
    requires AllIn(d, s)
  {
    if s == [] then {}
    else
      var c := d[s[0]];
      var rest := CollectSupporters(d, s[1..], target, r);
      if c.round == r && target in c.parents then {c.author} + rest else rest
  }

  ghost function SupportersReference(d: Dag, target: CertHash, r: Round): set<AuthorityId>
  {
    CollectSupporters(d, Linearization(d), target, r)
  }

  /** The members of the list that lie in `keep`. */
  ghost function Retain(s: seq<CertHash>, keep: set<CertHash>): seq<CertHash>
  {
    if s == [] then []
    else if s[0] in keep then [s[0]] + Retain(s[1..], keep)
    else Retain(s[1..], keep)
  }

  lemma {:induction false} RetainMembers(s: seq<CertHash>, keep: set<CertHash>)
    ensures forall x :: x in Retain(s, keep) <==> x in s && x in keep
  {
    if s != [] {
      RetainMembers(s[1..], keep);
      assert s == [s[0]] + s[1..];
    }
  }

  ghost function CausalHistoryReference(d: Dag, start: CertHash): seq<CertHash>
    requires WellFormed(d)
  {
    Retain(Linearization(d), if start in d then Ancestors(d, start) else {})
  }

  function HighestRound(d: Dag, s: seq<CertHash>): Option<Round>
    requires AllIn(d, s)
  {
    if s == [] then None
    else match HighestRound(d, s[1..])
      case None => Some(d[s[0]].round)
      case Some(m) => Some(if m < d[s[0]].round then d[s[0]].round else m)
  }

  ghost function DirectReference(d: Dag, r: Round, n: nat): LeaderStatus
    requires n > 0
  {
    match CertAtReference(d, r, Leader(r, n))
    case None => Undecided
    case Some(h) => if |SupportersReference(d, h, r + 1)| >= QuorumThreshold(n) then Direct(h) else Undecided
  }

  ghost function IndirectReference(d: Dag, r: Round, anchor: CertHash, n: nat): LeaderStatus
    requires n > 0 && WellFormed(d)
  {
    match CertAtReference(d, r, Leader(r, n))
    case None => Skip
    case Some(t) => if t in CausalHistoryReference(d, anchor) then Direct(t) else Skip
  }

  /** The anchor scan from round `a` up to `last`, returning early on Direct,
      over whatever direct and indirect rules it is given. */
  ghost function Scan(direct: Round -> LeaderStatus, indirect: CertHash -> LeaderStatus,
                      a: Round, last: Round, seen: bool): LeaderStatus
    decreases last + 1 - a
  {
    if a > last then (if seen then Skip else Undecided)
    else match direct(a)
      case Direct(anchor) =>
        if indirect(anchor).Direct? then indirect(anchor) else Scan(direct, indirect, a + 1, last, true)
      case _ => Scan(direct, indirect, a + 1, last, seen)
  }

  ghost function DirectRule(d: Dag, n: nat): Round -> LeaderStatus
    requires n > 0
  {
    (a: Round) => DirectReference(d, a, n)
  }

  ghost function IndirectRule(d: Dag, r: Round, n: nat): CertHash -> LeaderStatus
    requires n > 0 && WellFormed(d)
  {
    (h: CertHash) => IndirectReference(d, r, h, n)
  }

  ghost function DecideReference(d: Dag, r: Round, n: nat): LeaderStatus
    requires n > 0 && WellFormed(d)
  {
    if DirectReference(d, r, n).Direct? then DirectReference(d, r, n)
    else match HighestRound(d, Linearization(d))
      case None => Undecided
      case Some(last) =>
        Scan(DirectRule(d, n), IndirectRule(d, r, n), r + 2, last, false)
  }

  /** The finalize loop over whatever decision and history rules it is given. */
  ghost function Collect(decide: Round -> LeaderStatus, history: CertHash -> seq<CertHash>, k: nat): seq<CertHash>
  {
    if k == 0 then []
    else
      var before := Collect(decide, history, k - 1);
      match decide(k - 1)
      case Direct(h) => WithFresh(before, history(h))
      case _ => before
  }

  ghost function DecideRule(d: Dag, n: nat): Round -> LeaderStatus
    requires n > 0 && WellFormed(d)
  {
    (r: Round) => DecideReference(d, r, n)
  }

  ghost function HistoryRule(d: Dag): CertHash -> seq<CertHash>
    requires WellFormed(d)
  {
    (h: CertHash) => CausalHistoryReference(d, h)
  }

  ghost function FinalizeReference(d: Dag, n: nat): seq<CertHash>
    requires n > 0 && WellFormed(d)
  {
    match HighestRound(d, Linearization(d))
    case None => []
    case Some(last) => Collect(DecideRule(d, n), HistoryRule(d), last)
  }

  // ----- Each reference equals the indexed form -----

  lemma {:induction false} FindSlotFindsLeast(d: Dag, s: seq<CertHash>, r: Round, a: AuthorityId)
    requires AllIn(d, s) && Sorted(d, s)
    ensures var f := FindSlot(d, s, r, a);
            && (f.None? ==> forall h | h in s :: !(d[h].round == r && d[h].author == a))
            && (f.Some? ==> f.value in s && d[f.value].round == r && d[f.value].author == a)
            && (f.Some? ==> forall h | h in s && d[h].round == r && d[h].author == a :: f.value <= h)
  {
    if s != [] {
      assert s == [s[0]] + s[1..];
      FindSlotFindsLeast(d, s[1..], r, a);
      forall h | h in s[1..] ensures Less(d, s[0], h) {
        var i :| 0 <= i < |s[1..]| && s[1..][i] == h;
        assert h == s[i + 1];
      }
    }
  }

  lemma CertAtMatchesReference(d: Dag, r: Round, a: AuthorityId)
    ensures CertOf(d, r, a) == CertAtReference(d, r, a)
  {
    FindSlotFindsLeast(d, Linearization(d), r, a);
    var f := CertAtReference(d, r, a);
    if f.Some? {
      assert f.value in SlotSet(d, r, a);
      assert Min(SlotSet(d, r, a)) in Linearization(d);
    }
  }

  lemma {:induction false} CollectSupportersMeans(d: Dag, s: seq<CertHash>, target: CertHash, r: Round)
    requires AllIn(d, s)
    ensures CollectSupporters(d, s, target, r)
         == set h | h in s && d[h].round == r && target in d[h].parents :: d[h].author
  {
    if s != [] {
      CollectSupportersMeans(d, s[1..], target, r);
      assert s == [s[0]] + s[1..];
      assert forall h :: h in s <==> h == s[0] || h in s[1..];
    }
  }

  lemma SupportersMatchReference(d: Dag, target: CertHash, r: Round)
    ensures SupportersOf(d, target, r) == SupportersReference(d, target, r)
  {
    CollectSupportersMeans(d, Linearization(d), target, r);
  }

  lemma {:induction false} RetainKeepsOrder(d: Dag, s: seq<CertHash>, keep: set<CertHash>)
    requires AllIn(d, s) && Sorted(d, s)
    ensures AllIn(d, Retain(s, keep)) && Sorted(d, Retain(s, keep))
  {
    if s != [] {
      RetainKeepsOrder(d, s[1..], keep);
      RetainMembers(s[1..], keep);
      var rest := Retain(s[1..], keep);
      forall i | 0 <= i < |rest| ensures Less(d, s[0], rest[i]) {
        assert rest[i] in rest;
        var j :| 0 <= j < |s[1..]| && s[1..][j] == rest[i];
        assert s[j + 1] == rest[i];
      }
    }
  }

  lemma CausalHistoryMatchesReference(d: Dag, start: CertHash)
    requires WellFormed(d)
    ensures History(d, start) == CausalHistoryReference(d, start)
  {
    var keep := if start in d then Ancestors(d, start) else {};
    RetainKeepsOrder(d, Linearization(d), keep);
    RetainMembers(Linearization(d), keep);
    assert keep <= d.Keys;
    SortedUnique(d, CausalHistoryReference(d, start), Ordered(d, keep));
    assert Ordered(d, {}) == [];
  }

  lemma {:induction false} HighestRoundIsMax(d: Dag, s: seq<CertHash>)
    requires AllIn(d, s)
    ensures var m := HighestRound(d, s);
            && (m.None? <==> s == [])
            && (m.Some? ==> exists h :: h in s && d[h].round == m.value)
            && (m.Some? ==> forall h | h in s :: d[h].round <= m.value)
  {
    if s != [] {
      HighestRoundIsMax(d, s[1..]);
      assert s == [s[0]] + s[1..];
      assert s[0] in s;
      var m := HighestRound(d, s[1..]);
      if m.Some? {
        var h :| h in s[1..] && d[h].round == m.value;
        assert h in s;
      } else {
        assert s == [s[0]];
      }
    }
  }

  /** A highest round is determined by the members it ranges over. */
  lemma HighestIsUnique(d: Dag, s: seq<CertHash>, m: Round, k: Round)
    requires AllIn(d, s)
    requires (exists h :: h in s && d[h].round == m) && forall h | h in s :: d[h].round <= m
    requires (exists h :: h in s && d[h].round == k) && forall h | h in s :: d[h].round <= k
    ensures m == k
  {
  }

  lemma MaxRoundMatchesReference(d: Dag)
    ensures MaxRound(d) == HighestRound(d, Linearization(d))
  {
    var s := Linearization(d);
    HighestRoundIsMax(d, s);
    if d == map[] {
      assert s == [];
    } else {
      var h :| h in d && d[h].round == MaxRound(d).value;
      assert h in s;
      HighestIsUnique(d, s, MaxRound(d).value, HighestRound(d, s).value);
    }
  }

  lemma DirectMatchesReference(d: Dag, r: Round, n: nat)
    requires n > 0
    ensures DirectDecision(d, r, n) == DirectReference(d, r, n)
  {
    CertAtMatchesReference(d, r, Leader(r, n));
    if LeaderCert(d, r, n).Some? {
      SupportersMatchReference(d, LeaderCert(d, r, n).value, r + 1);
    }
  }

  lemma IndirectMatchesReference(d: Dag, r: Round, a: Round, n: nat)
    requires n > 0 && WellFormed(d) && IsAnchor(d, r, a, n)
    ensures var st := IndirectReference(d, r, DirectDecision(d, a, n).hash, n);
            if Inherits(d, r, a, n) then st == Direct(LeaderCert(d, r, n).value) else st == Skip
  {
    DirectDecisionInDag(d, a, n);
    CertAtMatchesReference(d, r, Leader(r, n));
    CausalHistoryMatchesReference(d, DirectDecision(d, a, n).hash);
  }

  ghost predicate Hit(direct: Round -> LeaderStatus, indirect: CertHash -> LeaderStatus, b: Round)
  {
    direct(b).Direct? && indirect(direct(b).hash).Direct?
  }

  ghost predicate AnyHit(direct: Round -> LeaderStatus, indirect: CertHash -> LeaderStatus, a: Round, last: Round)
  {
    exists b: Round :: a <= b <= last && Hit(direct, indirect, b)
  }

  ghost predicate AnyDirect(direct: Round -> LeaderStatus, a: Round, last: Round)
  {
    exists b: Round :: a <= b <= last && direct(b).Direct?
  }

  /** The early-returning scan finds a hit if there is one and otherwise
      reports whether it met any anchor. */
  lemma {:induction false} ScanMeans(direct: Round -> LeaderStatus, indirect: CertHash -> LeaderStatus,
                                     a: Round, last: Round, seen: bool, v: LeaderStatus)
    requires forall b | Hit(direct, indirect, b) :: indirect(direct(b).hash) == v
    ensures Scan(direct, indirect, a, last, seen)
         == if AnyHit(direct, indirect, a, last) then v
            else if seen || AnyDirect(direct, a, last) then Skip
            else Undecided
    decreases last + 1 - a
  {
    if a <= last && !Hit(direct, indirect, a) {
      ScanMeans(direct, indirect, a + 1, last, seen || direct(a).Direct?, v);
    }
  }

  /** The rules at one round say what the anchor of that round says. */
  lemma RulesMatch(d: Dag, r: Round, n: nat, a: Round)
    requires n > 0 && WellFormed(d) && a >= r + 2
    ensures DirectRule(d, n)(a).Direct? <==> IsAnchor(d, r, a, n)
    ensures Hit(DirectRule(d, n), IndirectRule(d, r, n), a) <==> IsAnchor(d, r, a, n) && Inherits(d, r, a, n)
  {
    DirectMatchesReference(d, a, n);
    if IsAnchor(d, r, a, n) {
      IndirectMatchesReference(d, r, a, n);
    }
  }

  lemma HitsMatch(d: Dag, r: Round, n: nat, last: Round)
    requires n > 0 && WellFormed(d) && forall a: Round | IsAnchor(d, r, a, n) :: a <= last
    ensures AnyHit(DirectRule(d, n), IndirectRule(d, r, n), r + 2, last)
       <==> exists a: Round :: IsAnchor(d, r, a, n) && Inherits(d, r, a, n)
    ensures AnyDirect(DirectRule(d, n), r + 2, last) <==> exists a: Round :: IsAnchor(d, r, a, n)
  {
    forall a: Round | a >= r + 2
      ensures DirectRule(d, n)(a).Direct? <==> IsAnchor(d, r, a, n)
      ensures Hit(DirectRule(d, n), IndirectRule(d, r, n), a) <==> IsAnchor(d, r, a, n) && Inherits(d, r, a, n)
    {
      RulesMatch(d, r, n, a);
    }
  }

  lemma ScanMatches(d: Dag, r: Round, n: nat, last: Round)
    requires n > 0 && WellFormed(d) && forall a: Round | IsAnchor(d, r, a, n) :: a <= last
    ensures Scan(DirectRule(d, n), IndirectRule(d, r, n), r + 2, last, false)
         == if exists a: Round :: IsAnchor(d, r, a, n) && Inherits(d, r, a, n) then Direct(LeaderCert(d, r, n).value)
            else if exists a: Round :: IsAnchor(d, r, a, n) then Skip
            else Undecided
  {
    CertAtMatchesReference(d, r, Leader(r, n));
    var v := if LeaderCert(d, r, n).Some? then Direct(LeaderCert(d, r, n).value) else Skip;
    ScanMeans(DirectRule(d, n), IndirectRule(d, r, n), r + 2, last, false, v);
    HitsMatch(d, r, n, last);
  }

  lemma DecideMatchesReference(d: Dag, r: Round, n: nat)
    requires n > 0 && WellFormed(d)
    ensures Decision(d, r, n) == DecideReference(d, r, n)
  {
    DirectMatchesReference(d, r, n);
    MaxRoundMatchesReference(d);
    NoAnchorBeyondMax(d, r, n);
    if !DirectDecision(d, r, n).Direct? && MaxRound(d).Some? {
      ScanMatches(d, r, n, MaxRound(d).value);
    }
  }

  lemma {:induction false} CollectMeans(d: Dag, n: nat, decide: Round -> LeaderStatus,
                                        history: CertHash -> seq<CertHash>, k: nat)
    requires n > 0 && WellFormed(d)
    requires forall r: Round :: decide(r) == Decision(d, r, n)
    requires forall h: CertHash :: history(h) == History(d, h)
    ensures Collect(decide, history, k) == FinalizedBelow(d, n, k)
  {
    if k > 0 {
      CollectMeans(d, n, decide, history, k - 1);
    }
  }

  lemma RulesAgree(d: Dag, n: nat)
    requires n > 0 && WellFormed(d)
    ensures forall r: Round :: DecideRule(d, n)(r) == Decision(d, r, n)
    ensures forall h: CertHash :: HistoryRule(d)(h) == History(d, h)
  {
    forall r: Round ensures DecideRule(d, n)(r) == Decision(d, r, n) { DecideMatchesReference(d, r, n); }
    forall h: CertHash ensures HistoryRule(d)(h) == History(d, h) { CausalHistoryMatchesReference(d, h); }
  }

  /** The headline equivalence: the committed sequence of the indexed code is
      the committed sequence of the linearize-based code. */
  lemma FinalizeMatchesReference(d: Dag, n: nat)
    requires n > 0 && WellFormed(d)
    ensures Finalized(d, n) == FinalizeReference(d, n)
  {
    MaxRoundMatchesReference(d);
    RulesAgree(d, n);
    if MaxRound(d).Some? {
      CollectMeans(d, n, DecideRule(d, n), HistoryRule(d), MaxRound(d).value);
    }
  }
}
