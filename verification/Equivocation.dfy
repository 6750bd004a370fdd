/** Equivocation detection (equivocation.rs): one proof for each author and
    round holding two or more certificates, and one for each validator voting
    for two or more candidates, carrying the two smallest hashes. */
module Equivocation {
  import opened Sets
  import opened Certs
  import opened DagStores
  import opened Commit
  import opened Finality

  type ValidatorId = nat

  datatype Vote = Vote(validator: ValidatorId, candidate: CertHash)

  datatype EquivocationProof = EquivocationProof(
    author: AuthorityId, round: Round, certA: CertHash, certB: CertHash)

  datatype DoubleVoteProof = DoubleVoteProof(
    validator: ValidatorId, candidateA: CertHash, candidateB: CertHash)

  /** `a` and `b` are the two smallest members of `s`, in order. */
  ghost predicate TwoSmallest(s: set<CertHash>, a: CertHash, b: CertHash)
  {
    a in s && b in s && a < b && forall x | x in s :: x == a || b <= x
  }

  ghost predicate ProvesEquivocation(d: Dag, p: EquivocationProof)
  {
    TwoSmallest(SlotSet(d, p.round, p.author), p.certA, p.certB)
  }

  /** The distinct candidates one validator voted for. */
  ghost function Candidates(votes: seq<Vote>, v: ValidatorId): set<CertHash>
  {
    set x | x in votes && x.validator == v :: x.candidate
  }

  ghost predicate ProvesDoubleVote(votes: seq<Vote>, p: DoubleVoteProof)
  {
    TwoSmallest(Candidates(votes, p.validator), p.candidateA, p.candidateB)
  }

  // ----- Sorting a bucket -----

  function InsertNat(x: nat, s: seq<nat>): seq<nat>
  {
    if s == [] || x <= s[0] then [x] + s else [s[0]] + InsertNat(x, s[1..])
  }

  function SortNats(s: seq<nat>): seq<nat>
  {
    if s == [] then [] else InsertNat(s[0], SortNats(s[1..]))
  }

  ghost predicate Ascending(s: seq<nat>)
  {
    forall i, j | 0 <= i < j < |s| :: s[i] <= s[j]
  }

  lemma {:induction false} InsertNatPermutes(x: nat, s: seq<nat>)
    ensures multiset(InsertNat(x, s)) == multiset(s) + multiset{x}
  {
    if s != [] && x > s[0] {
      InsertNatPermutes(x, s[1..]);
      assert s == [s[0]] + s[1..];
    }
  }

  lemma {:induction false} InsertNatSorts(x: nat, s: seq<nat>)
    requires Ascending(s)
    ensures Ascending(InsertNat(x, s))
  {
    if s != [] && x > s[0] {
      InsertNatSorts(x, s[1..]);
      InsertNatPermutes(x, s[1..]);
      var rest := InsertNat(x, s[1..]);
      forall j | 0 <= j < |rest| ensures s[0] <= rest[j] {
        assert rest[j] in multiset(rest);
        if rest[j] != x {
          assert rest[j] in multiset(s[1..]);
        }
      }
    }
  }

  lemma {:induction false} SortNatsSorts(s: seq<nat>)
    ensures Ascending(SortNats(s)) && multiset(SortNats(s)) == multiset(s)
  {
    if s != [] {
      SortNatsSorts(s[1..]);
      InsertNatSorts(s[0], SortNats(s[1..]));
      InsertNatPermutes(s[0], SortNats(s[1..]));
      assert s == [s[0]] + s[1..];
    }
  }

  /** The first two entries of the sorted bucket are its two smallest hashes. */
  lemma SortedBucketHead(s: seq<nat>, m: set<nat>)
    requires NoDup(s) && |s| >= 2 && forall x :: x in s <==> x in m
    ensures |SortNats(s)| == |s|
    ensures TwoSmallest(m, SortNats(s)[0], SortNats(s)[1])
  {
    SortNatsSorts(s);
    var t := SortNats(s);
    assert |t| == |multiset(t)| == |multiset(s)| == |s|;
    SameMembers(s, t);
    assert t[0] in t && t[1] in t;
    DistinctHead(s, t);
    forall x | x in m ensures x == t[0] || t[1] <= x {
      var i :| 0 <= i < |t| && t[i] == x;
    }
  }

  lemma DistinctHead(s: seq<nat>, t: seq<nat>)
    requires NoDup(s) && multiset(s) == multiset(t) && |t| >= 2
    ensures t[0] != t[1]
  {
    if t[0] == t[1] {
      assert t == [t[0], t[1]] + t[2..];
      assert multiset(t)[t[0]] >= 2;
      NoDupOnce(s, t[0]);
    }
  }

  lemma {:induction false} NoDupOnce(s: seq<nat>, x: nat)
    requires NoDup(s)
    ensures multiset(s)[x] <= 1
  {
    if s != [] {
      NoDupOnce(s[1..], x);
      assert s == [s[0]] + s[1..];
      assert s[0] !in s[1..];
    }
  }

  /** A bucket with fewer than two entries has no two smallest. */
  lemma SmallBucket(s: seq<nat>, m: set<nat>, a: nat, b: nat)
    requires |s| < 2 && forall x :: x in s <==> x in m
    ensures !TwoSmallest(m, a, b)
  {
  }

  // ----- Authority equivocation -----

  type Buckets = map<(AuthorityId, Round), seq<CertHash>>

  /** The buckets hold exactly the hashes of `s`, grouped by author and round. */
  ghost predicate Grouped(d: Dag, s: seq<CertHash>, b: Buckets)
    requires AllIn(d, s)
  {
    && (forall k | k in b :: NoDup(b[k]))
    && (forall k, h | k in b && h in b[k] :: h in s && h in d && k == (d[h].author, d[h].round))
    && (forall h | h in s && h in d :: (d[h].author, d[h].round) in b && h in b[(d[h].author, d[h].round)])
  }

  method DetectAuthorityEquivocation(dag: DagStore) returns (proofs: seq<EquivocationProof>)
    requires dag.Valid()
    ensures forall p :: p in proofs <==> ProvesEquivocation(dag.certs, p)
    ensures forall i, j | 0 <= i < j < |proofs| ::
              proofs[i].author < proofs[j].author
              || (proofs[i].author == proofs[j].author && proofs[i].round < proofs[j].round)
  {
    var order := dag.Linearize();
    var buckets := GroupBySlot(dag.certs, order);
    proofs := DrainBuckets(dag.certs, order, buckets);
  }

  method GroupBySlot(d: Dag, order: seq<CertHash>) returns (buckets: Buckets)
    requires AllIn(d, order) && NoDup(order)
    ensures Grouped(d, order, buckets)
  {
    buckets := map[];
    for i := 0 to |order|
      invariant AllIn(d, order[..i]) && Grouped(d, order[..i], buckets)
    {
      var h := order[i];
      var key := (d[h].author, d[h].round);
      var entry := if key in buckets then buckets[key] else [];
      assert order[..i + 1] == order[..i] + [h];
      GroupOne(d, order[..i], buckets, h);
      buckets := buckets[key := entry + [h]];
    }
    assert order[..|order|] == order;
  }

  lemma GroupOne(d: Dag, s: seq<CertHash>, b: Buckets, h: CertHash)
    requires AllIn(d, s) && Grouped(d, s, b) && h in d && h !in s
    ensures var key := (d[h].author, d[h].round);
            var entry := if key in b then b[key] else [];
            AllIn(d, s + [h]) && Grouped(d, s + [h], b[key := entry + [h]])
  {
    var key := (d[h].author, d[h].round);
    var entry := if key in b then b[key] else [];
    var bigger := entry + [h];
    var b' := b[key := bigger];
    assert forall g :: g in bigger <==> g in entry || g == h;
    assert forall g :: g in s + [h] <==> g in s || g == h;
    forall k, g | k in b' && g in b'[k] ensures g in s + [h] && g in d && k == (d[g].author, d[g].round) {
      assert k == key || g in b[k];
    }
    forall g | g in s + [h] && g in d
      ensures (d[g].author, d[g].round) in b' && g in b'[(d[g].author, d[g].round)]
    {
      assert g == h || g in b[(d[g].author, d[g].round)];
    }
    forall k | k in b' ensures NoDup(b'[k]) {
      if k == key { assert h !in entry; }
    }
  }

  ghost predicate KeyBefore(p: (AuthorityId, Round), q: (AuthorityId, Round))
  {
    p.0 < q.0 || (p.0 == q.0 && p.1 < q.1)
  }

  function KeyOf(p: EquivocationProof): (AuthorityId, Round)
  {
    (p.author, p.round)
  }

  /** The proofs are exactly those of the slots in `done`, in ascending order. */
  ghost predicate Reports(d: Dag, done: set<(AuthorityId, Round)>, proofs: seq<EquivocationProof>)
  {
    && (forall p :: p in proofs <==> KeyOf(p) in done && ProvesEquivocation(d, p))
    && (forall i, j | 0 <= i < j < |proofs| :: KeyBefore(KeyOf(proofs[i]), KeyOf(proofs[j])))
  }

  lemma ReportOne(d: Dag, done: set<(AuthorityId, Round)>, proofs: seq<EquivocationProof>, p: EquivocationProof)
    requires Reports(d, done, proofs) && ProvesEquivocation(d, p)
    requires forall q | q in done :: KeyBefore(q, KeyOf(p))
    ensures Reports(d, done + {KeyOf(p)}, proofs + [p])
  {
    forall q | ProvesEquivocation(d, q) && KeyOf(q) == KeyOf(p) ensures q == p {}
    forall i | 0 <= i < |proofs| ensures KeyBefore(KeyOf(proofs[i]), KeyOf(p)) {
      assert proofs[i] in proofs;
    }
  }

  lemma ReportNone(d: Dag, done: set<(AuthorityId, Round)>, proofs: seq<EquivocationProof>, key: (AuthorityId, Round))
    requires Reports(d, done, proofs)
    requires forall p | KeyOf(p) == key :: !ProvesEquivocation(d, p)
    ensures Reports(d, done + {key}, proofs)
  {
  }

  /** What one bucket adds: its two smallest hashes, if it has two. */
  lemma BucketReport(d: Dag, order: seq<CertHash>, b: Buckets, key: (AuthorityId, Round))
    requires AllIn(d, order) && (forall h | h in d :: h in order) && Grouped(d, order, b) && key in b
    ensures |b[key]| >= 2 ==>
              && |SortNats(b[key])| >= 2
              && ProvesEquivocation(d, EquivocationProof(key.0, key.1, SortNats(b[key])[0], SortNats(b[key])[1]))
    ensures |b[key]| < 2 ==> forall p | KeyOf(p) == key :: !ProvesEquivocation(d, p)
  {
    BucketIsSlot(d, order, b, key);
    if |b[key]| >= 2 {
      SortedBucketHead(b[key], SlotSet(d, key.1, key.0));
    } else {
      forall p | KeyOf(p) == key ensures !ProvesEquivocation(d, p) {
        SmallBucket(b[key], SlotSet(d, key.1, key.0), p.certA, p.certB);
      }
    }
  }

  lemma EverySlotReported(d: Dag, order: seq<CertHash>, b: Buckets, proofs: seq<EquivocationProof>)
    requires AllIn(d, order) && (forall h | h in d :: h in order) && Grouped(d, order, b)
    requires Reports(d, b.Keys, proofs)
    ensures forall p :: p in proofs <==> ProvesEquivocation(d, p)
  {
    forall p | ProvesEquivocation(d, p) ensures KeyOf(p) in b {
      assert p.certA in order;
    }
  }

  /** Keys are visited in ascending (author, round) order. */
  method DrainBuckets(d: Dag, order: seq<CertHash>, buckets: Buckets) returns (proofs: seq<EquivocationProof>)
    requires AllIn(d, order) && (forall h | h in d :: h in order) && Grouped(d, order, buckets)
    ensures forall p :: p in proofs <==> ProvesEquivocation(d, p)
    ensures forall i, j | 0 <= i < j < |proofs| :: KeyBefore(KeyOf(proofs[i]), KeyOf(proofs[j]))
  {
    proofs := [];
    var rest := buckets.Keys;
    ghost var done: set<(AuthorityId, Round)> := {};
    while rest != {}
      invariant rest <= buckets.Keys && done + rest == buckets.Keys
      invariant forall k, q | k in rest && q in done :: KeyBefore(q, k)
      invariant Reports(d, done, proofs)
      decreases |rest|
    {
      var key := LeastKey(rest);
      var hashes := buckets[key];
      BucketReport(d, order, buckets, key);
      if |hashes| >= 2 {
        var sorted := SortNats(hashes);
        var proof := EquivocationProof(key.0, key.1, sorted[0], sorted[1]);
        ReportOne(d, done, proofs, proof);
        proofs := proofs + [proof];
      } else {
        ReportNone(d, done, proofs, key);
      }
      rest, done := rest - {key}, done + {key};
    }
    EverySlotReported(d, order, buckets, proofs);
  }

  method LeastKey(keys: set<(AuthorityId, Round)>) returns (k: (AuthorityId, Round))
    requires keys != {}
    ensures k in keys && forall q | q in keys :: q == k || KeyBefore(k, q)
  {
    var authors := set q | q in keys :: q.0;
    assert authors != {} by { var q :| q in keys; assert q.0 in authors; }
    var a := Min(authors);
    var rounds := set q | q in keys && q.0 == a :: q.1;
    assert rounds != {} by { var q :| q in keys && q.0 == a; assert q.1 in rounds; }
    k := (a, Min(rounds));
    forall q | q in keys ensures q == k || KeyBefore(k, q) {
      assert q.0 in authors;
      if q.0 == a { assert q.1 in rounds; }
    }
  }

  lemma BucketIsSlot(d: Dag, order: seq<CertHash>, b: Buckets, key: (AuthorityId, Round))
    requires AllIn(d, order) && (forall h | h in d :: h in order) && Grouped(d, order, b) && key in b
    ensures forall h :: h in b[key] <==> h in SlotSet(d, key.1, key.0)
  {
  }

  /** The first hash of a proof is the one the commit rule would look up. */
  lemma ProofNamesLookup(d: Dag, p: EquivocationProof)
    requires ProvesEquivocation(d, p)
    ensures CertOf(d, p.round, p.author) == Some(p.certA)
    ensures p.certA != p.certB && p.certA in d && p.certB in d
  {
  }

  /** A slot has exactly one proof if it holds two or more certificates, and none
      otherwise. */
  lemma ProofPerSlot(d: Dag, r: Round, a: AuthorityId)
    ensures |SlotSet(d, r, a)| >= 2 <==>
              exists p :: ProvesEquivocation(d, p) && p.round == r && p.author == a
    ensures forall p, q | ProvesEquivocation(d, p) && ProvesEquivocation(d, q)
                          && p.round == q.round == r && p.author == q.author == a :: p == q
  {
    var s := SlotSet(d, r, a);
    if |s| >= 2 {
      var x := Min(s);
      var others := s - {x};
      assert |others| == |s| - 1;
      var y := Min(others);
      assert y in s && y != x;
      assert forall z | z in s :: z == x || z in others;
      assert TwoSmallest(s, x, y);
      assert ProvesEquivocation(d, EquivocationProof(a, r, x, y));
    } else {
      forall p | ProvesEquivocation(d, p) && p.round == r && p.author == a ensures false {
        assert {p.certA, p.certB} <= s;
        SubsetSize({p.certA, p.certB}, s);
      }
    }
  }

  /** No proofs at all means no equivocation, the premise of finality. */
  lemma NoProofsMeansNoEquivocation(d: Dag)
    ensures NoEquivocation(d) <==> !exists p :: ProvesEquivocation(d, p)
  {
    if p :| ProvesEquivocation(d, p) {
      assert p.certA in d && p.certB in d;
    }
    if g, h :| g in d && h in d && d[g].round == d[h].round && d[g].author == d[h].author && g != h {
      var s := SlotSet(d, d[g].round, d[g].author);
      assert {g, h} <= s;
      SubsetSize({g, h}, s);
      ProofPerSlot(d, d[g].round, d[g].author);
    }
  }

  // ----- Validator double votes -----

  type VoteBuckets = map<ValidatorId, seq<CertHash>>

  ghost predicate GroupedVotes(votes: seq<Vote>, b: VoteBuckets)
  {
    && (forall v | v in b :: NoDup(b[v]))
    && (forall v | v in b :: forall c :: c in b[v] <==> c in Candidates(votes, v))
    && (forall x | x in votes :: x.validator in b)
  }

  method DetectValidatorDoubleVote(votes: seq<Vote>) returns (proofs: seq<DoubleVoteProof>)
    ensures forall p :: p in proofs <==> ProvesDoubleVote(votes, p)
    ensures forall i, j | 0 <= i < j < |proofs| :: proofs[i].validator < proofs[j].validator
  {
    var buckets := GroupVotes(votes);
    proofs := [];
    var rest := buckets.Keys;
    while rest != {}
      invariant rest <= buckets.Keys
      invariant forall v, w | v in rest && w in buckets && w !in rest :: w < v
      invariant forall p :: p in proofs <==>
                  p.validator in buckets && p.validator !in rest && ProvesDoubleVote(votes, p)
      invariant forall i, j | 0 <= i < j < |proofs| :: proofs[i].validator < proofs[j].validator
      decreases |rest|
    {
      var v := Min(rest);
      var candidates := buckets[v];
      if |candidates| >= 2 {
        SortedBucketHead(candidates, Candidates(votes, v));
        var sorted := SortNats(candidates);
        var proof := DoubleVoteProof(v, sorted[0], sorted[1]);
        assert forall p | ProvesDoubleVote(votes, p) && p.validator == v :: p == proof;
        forall i | 0 <= i < |proofs| ensures proofs[i].validator < v {
          assert proofs[i] in proofs;
        }
        proofs := proofs + [proof];
      } else {
        forall p | ProvesDoubleVote(votes, p) ensures p.validator != v {
          if p.validator == v {
            SmallBucket(candidates, Candidates(votes, v), p.candidateA, p.candidateB);
          }
        }
      }
      rest := rest - {v};
    }
    forall p | ProvesDoubleVote(votes, p) ensures p.validator in buckets {
      assert p.candidateA in Candidates(votes, p.validator);
    }
  }

  method GroupVotes(votes: seq<Vote>) returns (buckets: VoteBuckets)
    ensures GroupedVotes(votes, buckets)
  {
    buckets := map[];
    for i := 0 to |votes|
      invariant GroupedVotes(votes[..i], buckets)
    {
      var x := votes[i];
      var entry := if x.validator in buckets then buckets[x.validator] else [];
      GroupVote(votes[..i], buckets, x);
      assert votes[..i + 1] == votes[..i] + [x];
      if x.candidate !in entry {
        entry := entry + [x.candidate];
      }
      buckets := buckets[x.validator := entry];
    }
    assert votes[..|votes|] == votes;
  }

  lemma GroupVote(votes: seq<Vote>, b: VoteBuckets, x: Vote)
    requires GroupedVotes(votes, b)
    ensures var entry := if x.validator in b then b[x.validator] else [];
            var grown := if x.candidate in entry then entry else entry + [x.candidate];
            GroupedVotes(votes + [x], b[x.validator := grown])
  {
    var entry := if x.validator in b then b[x.validator] else [];
    var grown := if x.candidate in entry then entry else entry + [x.candidate];
    var b' := b[x.validator := grown];
    assert forall y :: y in votes + [x] <==> y in votes || y == x;
    assert x.validator !in b ==> Candidates(votes, x.validator) == {};
    forall v ensures Candidates(votes + [x], v)
                  == Candidates(votes, v) + (if v == x.validator then {x.candidate} else {})
    {
      CandidatesGrow(votes, x, v);
    }
    assert forall c :: c in grown <==> c in entry || c == x.candidate;
  }

  lemma CandidatesGrow(votes: seq<Vote>, x: Vote, v: ValidatorId)
    ensures Candidates(votes + [x], v)
         == Candidates(votes, v) + (if v == x.validator then {x.candidate} else {})
  {
    assert forall y :: y in votes + [x] <==> y in votes || y == x;
    forall c | c in Candidates(votes, v) ensures c in Candidates(votes + [x], v) {
      var y :| y in votes && y.validator == v && y.candidate == c;
      assert y in votes + [x];
    }
    if v == x.validator {
      assert x in votes + [x];
    }
  }
}
