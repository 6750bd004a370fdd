/** The DagBft-C commit rule (commit.rs).

    The first half defines decisions on the plain set of certificates, with no
    index, no search order and no loop.  The second half is the code: lookups
    through the by-round index, the breadth-first walk, the anchor scan and the
    finalization loop, each proved to return what the first half defines. */
module Commit {
  import opened Sets
  import opened Certs
  import opened Causality
  import opened DagStores

  datatype LeaderStatus = Direct(hash: CertHash) | Skip | Undecided

  /** The least number above two thirds of the committee. */
  function QuorumThreshold(n: nat): (q: nat)
    ensures n > 0 ==> 3 * q > 2 * n && 3 * (q - 1) <= 2 * n
    ensures n > 0 ==> q + (n - 1) / 3 <= n
    ensures n == 0 ==> q == 1
  {
    if n == 0 then 1 else n - (n - 1) / 3
  }

  function Leader(round: Round, n: nat): (a: AuthorityId)
    requires n > 0
    ensures a < n
  {
    round % n
  }

  lemma MultipleIsLarge(d: nat, n: nat)
    requires d >= 1
    ensures d * n >= n
  {
  }

  lemma SameRemainder(p: int, f: int, q: int, g: int, n: nat)
    requires 0 <= f < n && 0 <= g < n && p * n + f == q * n + g
    ensures f == g
  {
    var d := p - q;
    assert d * n == g - f;
    if d >= 1 {
      MultipleIsLarge(d, n);
    } else if d <= -1 {
      var e := 0 - d;
      assert e * n == f - g;
      MultipleIsLarge(e, n);
    }
  }

  /** The next author leads the next round. */
  lemma NextLeader(n: nat, r: Round)
    requires n > 0
    ensures Leader(r + 1, n) == if Leader(r, n) + 1 == n then 0 else Leader(r, n) + 1
  {
    var q, f := r / n, r % n;
    assert r == q * n + f;
    assert r + 1 == (r + 1) / n * n + (r + 1) % n;
    if f + 1 == n {
      assert (q + 1) * n == q * n + n;
      SameRemainder((r + 1) / n, (r + 1) % n, q + 1, 0, n);
    } else {
      SameRemainder((r + 1) / n, (r + 1) % n, q, f + 1, n);
    }
  }

  lemma {:induction false} LeaderAfter(n: nat, start: Round, k: nat)
    requires n > 0 && k <= n
    ensures var a := Leader(start, n) + k; Leader(start + k, n) == if a < n then a else a - n
  {
    if k > 0 {
      LeaderAfter(n, start, k - 1);
      NextLeader(n, start + (k - 1));
    }
  }

  /** `r` is the one round of the n from `start` on that author `a` leads. */
  ghost predicate OnlyTurn(n: nat, start: Round, a: AuthorityId, r: Round)
    requires n > 0
  {
    && start <= r < start + n && Leader(r, n) == a
    && forall q: Round | start <= q < start + n && Leader(q, n) == a :: q == r
  }

  /** Round robin: author 0 leads round 0, the next author the next round, and any n
      consecutive rounds see each author lead exactly once. */
  lemma RoundRobin(n: nat, start: Round, a: AuthorityId) returns (r: Round)
    requires a < n
    ensures Leader(0, n) == 0
    ensures Leader(start + 1, n) == if Leader(start, n) + 1 == n then 0 else Leader(start, n) + 1
    ensures OnlyTurn(n, start, a, r)
  {
    var first := Leader(start, n);
    var k := if first <= a then a - first else a + n - first;
    r := start + k;
    NextLeader(n, start);
    LeaderAfter(n, start, k);
    forall q: Round | start <= q < start + n && Leader(q, n) == a ensures q == r {
      LeaderAfter(n, start, q - start);
    }
  }

  // ----- What a decision is -----

  /** The certificates of one author at one round (two or more if the author
      equivocates). */
  ghost function SlotSet(d: Dag, r: Round, a: AuthorityId): set<CertHash>
  {
    set h | h in d && d[h].round == r && d[h].author == a
  }

  ghost function CertOf(d: Dag, r: Round, a: AuthorityId): Option<CertHash>
  {
    if SlotSet(d, r, a) == {} then None else Some(Min(SlotSet(d, r, a)))
  }

  ghost function LeaderCert(d: Dag, r: Round, n: nat): Option<CertHash>
    requires n > 0
  {
    CertOf(d, r, Leader(r, n))
  }

  /** Authors with a certificate at round `r` that cites `target`. */
  ghost function SupportersOf(d: Dag, target: CertHash, r: Round): set<AuthorityId>
  {
    set h | h in d && d[h].round == r && target in d[h].parents :: d[h].author
  }

  ghost function DirectDecision(d: Dag, r: Round, n: nat): LeaderStatus
    requires n > 0
  {
    match LeaderCert(d, r, n)
    case None => Undecided
    case Some(h) => if |SupportersOf(d, h, r + 1)| >= QuorumThreshold(n) then Direct(h) else Undecided
  }

  /** Round `a` has a directly decided leader and is late enough to speak about
      round `r`. */
  ghost predicate IsAnchor(d: Dag, r: Round, a: Round, n: nat)
    requires n > 0
  {
    a >= r + 2 && DirectDecision(d, a, n).Direct?
  }

  /** The anchor of round `a` has the leader certificate of round `r` among its
      ancestors. */
  ghost predicate Inherits(d: Dag, r: Round, a: Round, n: nat)
    requires n > 0 && WellFormed(d) && IsAnchor(d, r, a, n)
  {
    && LeaderCert(d, r, n).Some?
    && DirectDecision(d, a, n).hash in d
    && Reaches(d, DirectDecision(d, a, n).hash, LeaderCert(d, r, n).value)
  }

  /** The decision of a slot: committed if its leader certificate is directly
      supported or inherited by some anchor; skipped if there are anchors and
      none inherits it; open otherwise. */
  ghost function Decision(d: Dag, r: Round, n: nat): LeaderStatus
    requires n > 0 && WellFormed(d)
  {
    if DirectDecision(d, r, n).Direct? then DirectDecision(d, r, n)
    else if exists a: Round :: IsAnchor(d, r, a, n) && Inherits(d, r, a, n) then
      Direct(LeaderCert(d, r, n).value)
    else if exists a: Round :: IsAnchor(d, r, a, n) then Skip
    else Undecided
  }

  lemma DirectIsLeaderCert(d: Dag, r: Round, n: nat)
    requires n > 0 && WellFormed(d) && Decision(d, r, n).Direct?
    ensures LeaderCert(d, r, n) == Some(Decision(d, r, n).hash)
    ensures var h := Decision(d, r, n).hash;
            h in d && d[h].round == r && d[h].author == Leader(r, n)
  {
  }

  lemma DirectDecisionInDag(d: Dag, r: Round, n: nat)
    requires n > 0 && DirectDecision(d, r, n).Direct?
    ensures var h := DirectDecision(d, r, n).hash;
            h in d && d[h].round == r && d[h].author == Leader(r, n)
    ensures exists h :: h in d && d[h].round == r + 1
  {
    var h := DirectDecision(d, r, n).hash;
    assert SupportersOf(d, h, r + 1) != {};
    var a :| a in SupportersOf(d, h, r + 1);
  }

  /** No slot at or beyond the last round is ever committed: a direct decision
      needs supporters one round up and an anchor two rounds up. */
  lemma NoDecisionBeyondMax(d: Dag, r: Round, n: nat)
    requires n > 0 && WellFormed(d)
    requires MaxRound(d).None? || r >= MaxRound(d).value
    ensures !Decision(d, r, n).Direct?
  {
    if DirectDecision(d, r, n).Direct? {
      DirectDecisionInDag(d, r, n);
    }
    forall a: Round | IsAnchor(d, r, a, n) ensures false {
      DirectDecisionInDag(d, a, n);
    }
  }

  /** The finalized sequence produced by the slots below `k`. */
  ghost function FinalizedBelow(d: Dag, n: nat, k: nat): seq<CertHash>
    requires n > 0 && WellFormed(d)
  {
    OverSlots(SlotAdder(d, n), k)
  }

  /** What slot `r` adds to the output `before`. */
  ghost function WithSlot(d: Dag, n: nat, before: seq<CertHash>, r: Round): seq<CertHash>
    requires n > 0 && WellFormed(d)
  {
    match Decision(d, r, n)
    case Direct(h) => WithFresh(before, History(d, h))
    case _ => before
  }

  /** The slots below `k` in order, over whatever a slot adds. */
  ghost function OverSlots(add: (seq<CertHash>, Round) -> seq<CertHash>, k: nat): seq<CertHash>
  {
    if k == 0 then [] else add(OverSlots(add, k - 1), k - 1)
  }

  ghost function SlotAdder(d: Dag, n: nat): (seq<CertHash>, Round) -> seq<CertHash>
    requires n > 0 && WellFormed(d)
  {
    (before: seq<CertHash>, r: Round) => WithSlot(d, n, before, r)
  }

  lemma OverSlotsStep(add: (seq<CertHash>, Round) -> seq<CertHash>, r: Round, k: nat)
    requires k == r + 1
    ensures OverSlots(add, k) == add(OverSlots(add, r), r)
  {
  }

  lemma FinalizedStep(d: Dag, n: nat, r: Round, k: nat)
    requires n > 0 && WellFormed(d) && k == r + 1
    ensures FinalizedBelow(d, n, k) == WithSlot(d, n, FinalizedBelow(d, n, r), r)
  {
    OverSlotsStep(SlotAdder(d, n), r, k);
  }

  lemma OpenSlotAddsNothing(d: Dag, n: nat, before: seq<CertHash>, r: Round)
    requires n > 0 && WellFormed(d) && !Decision(d, r, n).Direct?
    ensures WithSlot(d, n, before, r) == before
  {
  }

  /** Two DAGs commit slot `r` to the same certificate with the same history, or
      neither commits it. */
  ghost predicate SlotAlike(v: Dag, w: Dag, n: nat, r: Round)
    requires n > 0 && WellFormed(v) && WellFormed(w)
  {
    && (Decision(v, r, n).Direct? || Decision(w, r, n).Direct? ==> Decision(v, r, n) == Decision(w, r, n))
    && (Decision(v, r, n).Direct? ==> History(v, Decision(v, r, n).hash) == History(w, Decision(v, r, n).hash))
  }

  lemma SlotAddsAlike(v: Dag, w: Dag, n: nat, before: seq<CertHash>, r: Round)
    requires n > 0 && WellFormed(v) && WellFormed(w) && SlotAlike(v, w, n, r)
    ensures WithSlot(v, n, before, r) == WithSlot(w, n, before, r)
  {
  }

  lemma {:induction false} SameSlotsSameOutput(v: Dag, w: Dag, n: nat, k: nat)
    requires n > 0 && WellFormed(v) && WellFormed(w) && forall r: Round | r < k :: SlotAlike(v, w, n, r)
    ensures FinalizedBelow(v, n, k) == FinalizedBelow(w, n, k)
  {
    if k > 0 {
      var r: Round := k - 1;
      SameSlotsSameOutput(v, w, n, r);
      assert SlotAlike(v, w, n, r);
      SlotAddsAlike(v, w, n, FinalizedBelow(v, n, r), r);
      FinalizedStep(v, n, r, k);
      FinalizedStep(w, n, r, k);
    }
  }

  /** `before`, then whatever of `history` it did not list yet. */
  ghost function WithFresh(before: seq<CertHash>, history: seq<CertHash>): seq<CertHash>
  {
    before + Fresh(history, before)
  }

  ghost function Finalized(d: Dag, n: nat): seq<CertHash>
    requires n > 0 && WellFormed(d)
  {
    match MaxRound(d)
    case None => []
    case Some(m) => FinalizedBelow(d, n, m)
  }

  /** The members of `s` that are not in `prior`, in their order. */
  ghost function Fresh(s: seq<CertHash>, prior: seq<CertHash>): seq<CertHash>
  {
    if s == [] then []
    else
      var rest := Fresh(s[..|s| - 1], prior);
      if s[|s| - 1] in prior then rest else rest + [s[|s| - 1]]
  }

  lemma {:induction false} FreshMembers(s: seq<CertHash>, prior: seq<CertHash>)
    ensures forall x :: x in Fresh(s, prior) <==> x in s && x !in prior
  {
    if s != [] {
      FreshMembers(s[..|s| - 1], prior);
      assert s == s[..|s| - 1] + [s[|s| - 1]];
    }
  }

  // ----- The code -----

  function CertAt(dag: DagStore, round: Round, author: AuthorityId): (r: Option<CertHash>)
    requires dag.Valid()
    reads dag
    ensures r == CertOf(dag.certs, round, author)
  {
    var own := set h | h in dag.RoundHashes(round) && dag.certs[h].author == author;
    assert own == SlotSet(dag.certs, round, author);
    if own == {} then None else Some(Min(own))
  }

  function Supporters(dag: DagStore, target: CertHash, round: Round): (s: set<AuthorityId>)
    requires dag.Valid()
    reads dag
    ensures s == SupportersOf(dag.certs, target, round)
  {
    set h | h in dag.RoundHashes(round) && target in dag.certs[h].parents :: dag.certs[h].author
  }

  function TryDirectDecide(dag: DagStore, round: Round, n: nat): (r: LeaderStatus)
    requires dag.Valid() && n > 0
    reads dag
    ensures r == DirectDecision(dag.certs, round, n)
  {
    match CertAt(dag, round, Leader(round, n))
    case None => Undecided
    case Some(h) =>
      if |Supporters(dag, h, round + 1)| >= QuorumThreshold(n) then Direct(h) else Undecided
  }

  method CausalHistory(dag: DagStore, start: CertHash) returns (out: seq<CertHash>)
    requires dag.Valid()
    ensures out == History(dag.certs, start)
  {
    var seen := Walk(dag, start);
    var kept := set h | h in seen && h in dag.certs;
    out := ListInAnyOrder(kept);
    assert forall i | 0 <= i < |out| :: out[i] in out;
    if start in dag.certs {
      SortIsOrdered(dag.certs, out, Ancestors(dag.certs, start));
      assert SortByKey(dag.certs, out) == History(dag.certs, start);
    } else {
      assert kept == {};
      assert out == [];
      assert SortByKey(dag.certs, out) == [];
    }
    out := SortByKey(dag.certs, out);
  }

  /** The breadth-first walk: `seen`, a queue, and parents pushed behind it. */
  method Walk(dag: DagStore, start: CertHash) returns (seen: set<CertHash>)
    requires dag.Valid()
    ensures (set h | h in seen && h in dag.certs)
         == if start in dag.certs then Ancestors(dag.certs, start) else {}
  {
    seen := {};
    var queue := [start];
    ghost var d := dag.certs;
    while queue != []
      invariant WalkInvariant(d, start, seen, queue)
      decreases |d.Keys + {start} - seen|, |queue|
    {
      var h := queue[0];
      if h in seen {
        WalkSkips(d, start, seen, queue);
        queue := queue[1..];
      } else {
        assert h in queue;
        SeenGrows(d, start, seen, h);
        WalkVisits(d, start, seen, queue);
        seen := seen + {h};
        queue := queue[1..];
        if h in dag.certs {
          queue := queue + dag.certs[h].parents;
        }
      }
    }
    WalkIsComplete(d, start, seen);
  }

  /** Everything seen or queued descends from the start, and what has been seen
      has its parents seen or queued. */
  ghost predicate WalkInvariant(d: Dag, start: CertHash, seen: set<CertHash>, queue: seq<CertHash>)
  {
    && WellFormed(d)
    && (start in seen || start in queue)
    && (forall x | x in seen || x in queue :: FromStart(d, start, x))
    && (forall x, p | x in seen && x in d && p in d[x].parents :: p in seen || p in queue)
  }

  lemma WalkSkips(d: Dag, start: CertHash, seen: set<CertHash>, queue: seq<CertHash>)
    requires WalkInvariant(d, start, seen, queue) && queue != [] && queue[0] in seen
    ensures WalkInvariant(d, start, seen, queue[1..])
  {
    assert queue == [queue[0]] + queue[1..];
  }

  lemma WalkVisits(d: Dag, start: CertHash, seen: set<CertHash>, queue: seq<CertHash>)
    requires WalkInvariant(d, start, seen, queue) && queue != []
    ensures var h := queue[0];
            var parents := if h in d then d[h].parents else [];
            WalkInvariant(d, start, seen + {h}, queue[1..] + parents)
    ensures queue[0] !in d ==> queue[1..] + [] == queue[1..]
  {
    var h := queue[0];
    assert h in queue;
    assert queue == [h] + queue[1..];
    if h in d { ParentsFromStart(d, start, h); }
  }

  /** The members of a hash set in whatever order the set yields them. */
  method ListInAnyOrder(s: set<CertHash>) returns (out: seq<CertHash>)
    ensures NoDup(out) && |out| == |s|
    ensures forall x :: x in out <==> x in s
  {
    out := [];
    var rest := s;
    while rest != {}
      invariant rest <= s
      invariant NoDup(out) && |out| == |s| - |rest|
      invariant forall x :: x in out <==> x in s && x !in rest
      decreases |rest|
    {
      var x :| x in rest;
      out := out + [x];
      rest := rest - {x};
    }
  }

  ghost predicate FromStart(d: Dag, start: CertHash, x: CertHash)
    requires WellFormed(d)
  {
    x == start || (start in d && Reaches(d, start, x))
  }

  lemma ParentsFromStart(d: Dag, start: CertHash, h: CertHash)
    requires WellFormed(d) && h in d && FromStart(d, start, h)
    ensures forall p | p in d[h].parents :: FromStart(d, start, p)
  {
    forall p | p in d[h].parents ensures FromStart(d, start, p) {
      ReachesParent(d, start, h, p);
    }
  }

  lemma SeenGrows(d: Dag, start: CertHash, seen: set<CertHash>, h: CertHash)
    requires WellFormed(d) && FromStart(d, start, h) && h !in seen
    ensures |d.Keys + {start} - (seen + {h})| < |d.Keys + {start} - seen|
  {
    if h != start { ReachesIsOlder(d, start, h); }
    assert d.Keys + {start} - seen == (d.Keys + {start} - (seen + {h})) + {h};
  }

  /** When the queue runs empty, the stored part of `seen` is the ancestor set. */
  lemma WalkIsComplete(d: Dag, start: CertHash, seen: set<CertHash>)
    requires WellFormed(d) && start in seen
    requires forall x | x in seen :: FromStart(d, start, x)
    requires ParentClosed(d, seen)
    ensures (set h | h in seen && h in d) == if start in d then Ancestors(d, start) else {}
  {
    if start in d {
      AncestorsLeast(d, start, seen);
    }
  }

  method TryIndirectDecide(dag: DagStore, targetRound: Round, anchor: CertHash, n: nat)
    returns (r: LeaderStatus)
    requires dag.Valid() && n > 0
    ensures r == match LeaderCert(dag.certs, targetRound, n)
                 case None => Skip
                 case Some(t) =>
                   if anchor in dag.certs && Reaches(dag.certs, anchor, t) then Direct(t) else Skip
  {
    match CertAt(dag, targetRound, Leader(targetRound, n)) {
      case None => return Skip;
      case Some(target) =>
        var history := CausalHistory(dag, anchor);
        if target in history { return Direct(target); } else { return Skip; }
    }
  }

  method DecideSlot(dag: DagStore, targetRound: Round, n: nat) returns (r: LeaderStatus)
    requires dag.Valid() && n > 0
    ensures r == Decision(dag.certs, targetRound, n)
  {
    r := TryDirectDecide(dag, targetRound, n);
    if r.Direct? { return; }
    var last := dag.MaxRoundIndexed();
    NoAnchorBeyondMax(dag.certs, targetRound, n);
    if last.None? { return Undecided; }
    var anyAnchorSeen := false;
    var a := targetRound + 2;
    while a <= last.value
      invariant targetRound + 2 <= a
      invariant ScannedBelow(dag.certs, targetRound, a, n, anyAnchorSeen)
      decreases last.value + 1 - a
    {
      var anchor := TryDirectDecide(dag, a, n);
      if anchor.Direct? {
        DirectDecisionInDag(dag.certs, a, n);
        r := TryIndirectDecide(dag, targetRound, anchor.hash, n);
        if r.Direct? {
          InheritedDecides(dag.certs, targetRound, a, n);
          return;
        }
      }
      ScanStep(dag.certs, targetRound, a, n, anyAnchorSeen);
      if anchor.Direct? { anyAnchorSeen := true; }
      a := a + 1;
    }
    FullScanDecides(dag.certs, targetRound, a, n, anyAnchorSeen);
    r := if anyAnchorSeen then Skip else Undecided;
  }

  /** What the scan knows after the anchors of rounds below `k`: whether there
      was one, and that none inherits the slot. */
  ghost predicate ScannedBelow(d: Dag, r: Round, k: nat, n: nat, anySeen: bool)
    requires n > 0 && WellFormed(d)
  {
    && (anySeen ==> exists b: Round :: b < k && IsAnchor(d, r, b, n))
    && (forall b: Round | b < k && IsAnchor(d, r, b, n) :: anySeen && !Inherits(d, r, b, n))
  }

  lemma ScanStep(d: Dag, r: Round, k: nat, n: nat, anySeen: bool)
    requires n > 0 && WellFormed(d)
    requires ScannedBelow(d, r, k, n, anySeen)
    requires IsAnchor(d, r, k, n) ==> !Inherits(d, r, k, n)
    ensures ScannedBelow(d, r, k + 1, n, anySeen || IsAnchor(d, r, k, n))
  {
  }

  lemma InheritedDecides(d: Dag, r: Round, a: Round, n: nat)
    requires n > 0 && WellFormed(d) && IsAnchor(d, r, a, n) && Inherits(d, r, a, n)
    ensures LeaderCert(d, r, n).Some?
    ensures Decision(d, r, n) == Direct(LeaderCert(d, r, n).value)
  {
  }

  lemma FullScanDecides(d: Dag, r: Round, k: nat, n: nat, anySeen: bool)
    requires n > 0 && WellFormed(d) && !DirectDecision(d, r, n).Direct?
    requires ScannedBelow(d, r, k, n, anySeen) && (MaxRound(d).Some? ==> MaxRound(d).value < k)
    ensures Decision(d, r, n) == if anySeen then Skip else Undecided
  {
    NoAnchorBeyondMax(d, r, n);
  }

  lemma NoAnchorBeyondMax(d: Dag, r: Round, n: nat)
    requires n > 0
    ensures forall a: Round | IsAnchor(d, r, a, n) :: MaxRound(d).Some? && a <= MaxRound(d).value
  {
    forall a: Round | IsAnchor(d, r, a, n) ensures MaxRound(d).Some? && a <= MaxRound(d).value {
      DirectDecisionInDag(d, a, n);
    }
  }

  method CommitLeader(dag: DagStore, round: Round, n: nat) returns (r: Option<CertHash>)
    requires dag.Valid() && n > 0
    ensures forall h: CertHash :: r == Some(h) <==> Decision(dag.certs, round, n) == Direct(h)
  {
    var st := DecideSlot(dag, round, n);
    r := match st case Direct(h) => Some(h) case _ => None;
  }

  method Finalize(dag: DagStore, n: nat) returns (finalized: seq<CertHash>)
    requires dag.Valid() && n > 0
    ensures finalized == Finalized(dag.certs, n)
  {
    ghost var d := dag.certs;
    finalized := [];
    var last := dag.MaxRoundIndexed();
    if last.None? { return; }
    var included: set<CertHash> := {};
    for r := 0 to last.value
      invariant finalized == FinalizedBelow(d, n, r)
      invariant forall x :: x in included <==> x in finalized
    {
      ghost var next: nat := r + 1;
      FinalizedStep(d, n, r, next);
      var st := DecideSlot(dag, r, n);
      if st.Direct? {
        var history := CausalHistory(dag, st.hash);
        DirectIsLeaderCert(d, r, n);
        HistoryShape(d, st.hash);
        finalized, included := AppendFresh(history, finalized, included);
      }
    }
  }

  method AppendFresh(history: seq<CertHash>, prior: seq<CertHash>, included0: set<CertHash>)
    returns (finalized: seq<CertHash>, included: set<CertHash>)
    requires NoDup(history)
    requires forall x :: x in included0 <==> x in prior
    ensures finalized == WithFresh(prior, history)
    ensures forall x :: x in included <==> x in finalized
  {
    finalized, included := prior, included0;
    for i := 0 to |history|
      invariant finalized == prior + Fresh(history[..i], prior)
      invariant forall x :: x in included <==> x in finalized
    {
      assert history[..i + 1] == history[..i] + [history[i]];
      FreshMembers(history[..i], prior);
      assert history[i] in finalized <==> history[i] in prior;
      if history[i] !in included {
        included := included + {history[i]};
        finalized := finalized + [history[i]];
      }
    }
    assert history[..|history|] == history;
  }
}
