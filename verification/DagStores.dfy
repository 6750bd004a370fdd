/** The append-only certificate store (dag.rs): a map of certificates and an
    index of hashes by round, changed only by `Insert`. */
module DagStores {
  import opened Sets
  import opened Certs

  datatype ConsensusError =
    | UnknownParent(parent: CertHash)
    | NonMonotonicRound(child: Round, parentRound: Round)
    | DuplicateCertificate(hash: CertHash)
    | GenesisWithParents

  datatype InsertResult = Inserted(hash: CertHash) | Rejected(error: ConsensusError)

  /** A certificate that may join `d`: all parents known, all strictly older. */
  ghost predicate ParentsOk(d: Dag, c: Certificate)
  {
    forall p | p in c.parents :: p in d && d[p].round < c.round
  }

  predicate BadParent(d: Dag, c: Certificate, p: CertHash)
  {
    p !in d || d[p].round >= c.round
  }

  function ParentError(d: Dag, c: Certificate, p: CertHash): ConsensusError
    requires BadParent(d, c, p)
  {
    if p !in d then UnknownParent(p) else NonMonotonicRound(c.round, d[p].round)
  }

  /** What the four checks of `insert` decide, in their order. */
  ghost predicate InsertDecides(d: Dag, c: Certificate, hash: CertHash, r: InsertResult)
  {
    if c.round == 0 && c.parents != [] then r == Rejected(GenesisWithParents)
    else if !ParentsOk(d, c) then
      exists i :: && 0 <= i < |c.parents|
                  && BadParent(d, c, c.parents[i])
                  && (forall j | 0 <= j < i :: !BadParent(d, c, c.parents[j]))
                  && r == Rejected(ParentError(d, c, c.parents[i]))
    else if hash in d then r == Rejected(DuplicateCertificate(hash))
    else r == Inserted(hash)
  }

  /** A bucket of the index lists hashes of its own round, once each. */
  ghost predicate Bucket(d: Dag, r: Round, s: seq<CertHash>)
  {
    s != [] && NoDup(s) && forall h | h in s :: h in d && d[h].round == r
  }

  /** The by-round index lists exactly the stored hashes, once each, under
      their rounds, and never keeps an empty list. */
  ghost predicate Indexed(d: Dag, idx: map<Round, seq<CertHash>>)
  {
    && (forall r | r in idx :: Bucket(d, r, idx[r]))
    && (forall h | h in d :: d[h].round in idx && h in idx[d[h].round])
  }

  /** The hashes of one round, found by scanning the whole DAG. */
  ghost function RoundSet(d: Dag, r: Round): set<CertHash>
  {
    set h | h in d && d[h].round == r
  }

  ghost function Rounds(d: Dag): set<Round>
  {
    set h | h in d :: d[h].round
  }

  ghost function MaxRound(d: Dag): (m: Option<Round>)
    ensures m.None? <==> d == map[]
    ensures m.Some? ==> (exists h :: h in d && d[h].round == m.value)
    ensures m.Some? ==> forall h | h in d :: d[h].round <= m.value
  {
    if d == map[] then None
    else
      assert forall h | h in d :: d[h].round in Rounds(d);
      assert Rounds(d) != {} by { var h :| h in d; assert d[h].round in Rounds(d); }
      Some(Max(Rounds(d)))
  }

  /** The deterministic linearization as a function of the certificates alone. */
  ghost function Linearization(d: Dag): seq<CertHash>
  {
    Ordered(d, d.Keys)
  }

  class DagStore {
    /** The content hash, an opaque function of the hashed fields. */
    const hasher: Certificate -> CertHash
    var certs: Dag
    var byRound: map<Round, seq<CertHash>>

    ghost predicate Valid()
      reads this
    {
      && WellFormed(certs)
      && KeyedBy(hasher, certs)
      && Indexed(certs, byRound)
    }

    constructor (hasher: Certificate -> CertHash)
      ensures Valid() && certs == map[] && this.hasher == hasher
    {
      this.hasher := hasher;
      certs := map[];
      byRound := map[];
    }

    method Insert(cert: Certificate) returns (r: InsertResult)
      requires Valid()
      modifies this
      ensures Valid()
      ensures InsertDecides(old(certs), cert, hasher(cert), r)
      ensures r.Inserted? ==> certs == old(certs)[r.hash := cert]
      ensures r.Rejected? ==> certs == old(certs) && byRound == old(byRound)
    {
      if cert.round == 0 && cert.parents != [] {
        return Rejected(GenesisWithParents);
      }
      for i := 0 to |cert.parents|
        invariant forall j | 0 <= j < i :: !BadParent(certs, cert, cert.parents[j])
      {
        var p := cert.parents[i];
        if p in certs {
          if certs[p].round >= cert.round {
            assert BadParent(certs, cert, p);
            return Rejected(NonMonotonicRound(cert.round, certs[p].round));
          }
        } else {
          assert BadParent(certs, cert, p);
          return Rejected(UnknownParent(p));
        }
      }
      assert ParentsOk(certs, cert);
      var hash := hasher(cert);
      if hash in certs {
        return Rejected(DuplicateCertificate(hash));
      }
      IndexGrows(certs, byRound, hash, cert);
      InsertKeepsWellFormed(certs, hash, cert);
      var bucket := if cert.round in byRound then byRound[cert.round] else [];
      byRound := byRound[cert.round := bucket + [hash]];
      certs := certs[hash := cert];
      r := Inserted(hash);
    }

    /** Hashes of one round in insertion order; none for an absent round. */
    function RoundHashes(round: Round): (s: seq<CertHash>)
      requires Valid()
      reads this
      ensures NoDup(s)
      ensures forall h :: h in s <==> h in RoundSet(certs, round)
    {
      if round in byRound then byRound[round] else []
    }

    function MaxRoundIndexed(): (m: Option<Round>)
      requires Valid()
      reads this
      ensures m == MaxRound(certs)
    {
      if byRound == map[] then
        None
      else
        var r :| r in byRound;
        assert r in byRound.Keys;
        IndexKeysAreRounds(certs, byRound);
        assert byRound[r][0] in certs;
        Some(Max(byRound.Keys))
    }

    method Linearize() returns (out: seq<CertHash>)
      requires Valid()
      ensures out == Linearization(certs)
    {
      out := LinearizeIndexed(certs, byRound);
    }
  }

  method LinearizeIndexed(d: Dag, idx: map<Round, seq<CertHash>>) returns (out: seq<CertHash>)
    requires Indexed(d, idx)
    ensures out == Linearization(d)
  {
    out := [];
    var rest := idx.Keys;
    BelowAll(d, idx);
    while rest != {}
      invariant rest <= idx.Keys
      invariant out == Ordered(d, BelowRounds(d, rest))
      invariant OldestPending(idx.Keys, rest)
      decreases |rest|
    {
      var r := Min(rest);
      BucketSorts(d, idx, r);
      NextPending(idx.Keys, rest, r);
      NextRound(d, idx.Keys, rest, r);
      out := out + SortByKey(d, idx[r]);
      rest := rest - {r};
    }
  }

  /** The certificates whose round is no longer pending. */
  ghost function BelowRounds(d: Dag, rest: set<Round>): set<CertHash>
  {
    set h | h in d && d[h].round !in rest
  }

  lemma BelowAll(d: Dag, idx: map<Round, seq<CertHash>>)
    requires Indexed(d, idx)
    ensures BelowRounds(d, idx.Keys) == {} && BelowRounds(d, {}) == d.Keys
    ensures forall h | h in d :: d[h].round in idx.Keys
  {
  }

  /** Rounds are taken in ascending order: whatever is done is older. */
  ghost predicate OldestPending(all: set<Round>, rest: set<Round>)
  {
    forall r, q | r in rest && q in all && q !in rest :: q < r
  }

  lemma BucketSorts(d: Dag, idx: map<Round, seq<CertHash>>, r: Round)
    requires Indexed(d, idx) && r in idx
    ensures AllIn(d, idx[r])
    ensures SortByKey(d, idx[r]) == Ordered(d, RoundSet(d, r))
  {
    SortIsOrdered(d, idx[r], RoundSet(d, r));
  }

  lemma NextPending(all: set<Round>, rest: set<Round>, r: Round)
    requires r in rest && OldestPending(all, rest) && forall q | q in rest :: r <= q
    ensures OldestPending(all, rest - {r})
  {
  }

  lemma NextRound(d: Dag, all: set<Round>, rest: set<Round>, r: Round)
    requires r in rest && rest <= all && OldestPending(all, rest)
    requires forall h | h in d :: d[h].round in all
    ensures Ordered(d, BelowRounds(d, rest)) + Ordered(d, RoundSet(d, r))
         == Ordered(d, BelowRounds(d, rest - {r}))
  {
    var a, b := BelowRounds(d, rest), RoundSet(d, r);
    forall x, y | x in a && y in b ensures d[x].round < d[y].round {
      assert d[x].round in all && d[x].round !in rest;
    }
    AppendRound(d, a, b);
    assert a + b == BelowRounds(d, rest - {r});
  }

  lemma InsertKeepsWellFormed(d: Dag, hash: CertHash, c: Certificate)
    requires WellFormed(d) && ParentsOk(d, c) && hash !in d
    ensures WellFormed(d[hash := c])
    ensures Extends(d, d[hash := c])
  {
  }

  lemma BucketGrows(d: Dag, r: Round, s: seq<CertHash>, hash: CertHash, c: Certificate)
    requires (s == [] || Bucket(d, r, s)) && hash !in d && c.round == r
    ensures Bucket(d[hash := c], r, s + [hash])
  {
    assert hash !in s;
  }

  lemma IndexGrows(d: Dag, idx: map<Round, seq<CertHash>>, hash: CertHash, c: Certificate)
    requires Indexed(d, idx) && hash !in d
    ensures var bucket := if c.round in idx then idx[c.round] else [];
            Indexed(d[hash := c], idx[c.round := bucket + [hash]])
  {
    var bucket := if c.round in idx then idx[c.round] else [];
    var e, more := d[hash := c], idx[c.round := bucket + [hash]];
    BucketGrows(d, c.round, bucket, hash, c);
    forall r | r in more ensures Bucket(e, r, more[r]) {
      assert r == c.round || Bucket(d, r, idx[r]);
    }
    forall h | h in e ensures e[h].round in more && h in more[e[h].round] {
      if h == hash {
        assert (bucket + [hash])[|bucket|] == hash;
      } else {
        assert h in idx[d[h].round];
      }
    }
  }

  lemma IndexKeysAreRounds(d: Dag, idx: map<Round, seq<CertHash>>)
    requires Indexed(d, idx)
    ensures idx.Keys == Rounds(d)
  {
    forall r | r in idx ensures r in Rounds(d) {
      var h := idx[r][0];
      assert h in idx[r];
      assert d[h].round == r;
    }
    forall r | r in Rounds(d) ensures r in idx {
      var h :| h in d && d[h].round == r;
    }
  }

  /** Listing an earlier block of rounds and then one later round is listing
      their union. */
  lemma AppendRound(d: Dag, a: set<CertHash>, b: set<CertHash>)
    requires a <= d.Keys && b <= d.Keys
    requires forall x, y | x in a && y in b :: d[x].round < d[y].round
    ensures Ordered(d, a) + Ordered(d, b) == Ordered(d, a + b)
  {
    var s, t := Ordered(d, a), Ordered(d, b);
    forall i, j | 0 <= i < j < |s + t| ensures Less(d, (s + t)[i], (s + t)[j]) {
      if i < |s| && j >= |s| {
        assert s[i] in s && t[j - |s|] in t;
      }
    }
    SortedUnique(d, s + t, Ordered(d, a + b));
  }

  // ----- Runs of insertions -----

  /** The content after attempting a list of insertions in order; rejected
      certificates leave no trace. */
  ghost function Replay(H: Certificate -> CertHash, d: Dag, cs: seq<Certificate>): Dag
    decreases |cs|
  {
    if cs == [] then d
    else
      var before := Replay(H, d, cs[..|cs| - 1]);
      var c := cs[|cs| - 1];
      if Accepts(before, c, H(c)) then before[H(c) := c] else before
  }

  ghost predicate Accepts(d: Dag, c: Certificate, hash: CertHash)
  {
    ParentsOk(d, c) && hash !in d
  }

  /** Insertion succeeds exactly on certificates with known, older parents and
      a fresh hash: the separate genesis check adds nothing. */
  lemma InsertedIffAccepted(d: Dag, c: Certificate, hash: CertHash, r: InsertResult)
    requires InsertDecides(d, c, hash, r)
    ensures r.Inserted? <==> Accepts(d, c, hash)
  {
    if c.round == 0 && c.parents != [] {
      assert c.parents[0] in c.parents;
    }
  }

  /** Every run keeps the DAG well formed, keyed by hash and append-only. */
  lemma {:induction false} ReplayInvariant(H: Certificate -> CertHash, d: Dag, cs: seq<Certificate>)
    requires WellFormed(d) && KeyedBy(H, d)
    ensures var e := Replay(H, d, cs);
            && WellFormed(e) && Extends(d, e) && KeyedBy(H, e)
            && forall h | h in e && h !in d :: e[h] in cs
    decreases |cs|
  {
    if cs != [] {
      ReplayInvariant(H, d, cs[..|cs| - 1]);
    }
  }

  /** A run in which every insertion succeeded. */
  ghost predicate AllAccepted(H: Certificate -> CertHash, cs: seq<Certificate>)
  {
    forall i | 0 <= i < |cs| :: Accepts(Replay(H, map[], cs[..i]), cs[i], H(cs[i]))
  }

  ghost predicate Stores(H: Certificate -> CertHash, d: Dag, c: Certificate)
  {
    H(c) in d && d[H(c)] == c
  }

  lemma AcceptedPrefix(H: Certificate -> CertHash, cs: seq<Certificate>)
    requires AllAccepted(H, cs) && cs != []
    ensures AllAccepted(H, cs[..|cs| - 1])
  {
    var init := cs[..|cs| - 1];
    assert forall i | 0 <= i <= |init| :: init[..i] == cs[..i];
  }

  /** After a successful run the DAG stores exactly the inserted certificates. */
  lemma {:induction false} AcceptedContent(H: Certificate -> CertHash, cs: seq<Certificate>, c: Certificate)
    requires AllAccepted(H, cs)
    ensures c in cs <==> Stores(H, Replay(H, map[], cs), c)
    decreases |cs|
  {
    if cs != [] {
      var init, last := cs[..|cs| - 1], cs[|cs| - 1];
      AcceptedPrefix(H, cs);
      AcceptedContent(H, init, c);
      assert Accepts(Replay(H, map[], init), last, H(last));
      assert cs == init + [last];
    }
  }

  lemma SameMembers<T>(s: seq<T>, t: seq<T>)
    requires multiset(s) == multiset(t)
    ensures forall x :: x in s <==> x in t
  {
    forall x ensures x in s <==> x in t {
      assert x in s <==> x in multiset(s);
      assert x in t <==> x in multiset(t);
    }
  }

  /** Two successful insertion orders of the same certificates build the same
      DAG, hence the same linearization. */
  lemma OrderIndependent(H: Certificate -> CertHash, cs: seq<Certificate>, cs': seq<Certificate>)
    requires AllAccepted(H, cs) && AllAccepted(H, cs')
    requires multiset(cs) == multiset(cs')
    ensures Replay(H, map[], cs) == Replay(H, map[], cs')
    ensures Linearization(Replay(H, map[], cs)) == Linearization(Replay(H, map[], cs'))
  {
    SameMembers(cs, cs');
    ReplayCovers(H, cs, cs');
    ReplayCovers(H, cs', cs);
    assert Replay(H, map[], cs) == Replay(H, map[], cs');
  }

  lemma ReplayCovers(H: Certificate -> CertHash, cs: seq<Certificate>, cs': seq<Certificate>)
    requires AllAccepted(H, cs) && AllAccepted(H, cs')
    requires forall c :: c in cs ==> c in cs'
    ensures Extends(Replay(H, map[], cs), Replay(H, map[], cs'))
  {
    var d, e := Replay(H, map[], cs), Replay(H, map[], cs');
    ReplayInvariant(H, map[], cs);
    forall h | h in d ensures h in e && e[h] == d[h] {
      AcceptedContent(H, cs, d[h]);
      AcceptedContent(H, cs', d[h]);
    }
  }

  /** Earlier round; then smaller author; then smaller hash. */
  predicate KeyBefore(c: Certificate, g: CertHash, e: Certificate, h: CertHash)
  {
    c.round <= e.round && (c.round == e.round ==> c.author <= e.author && (c.author == e.author ==> g < h))
  }

  /** The linearization lists every hash once and every parent before its child, by
      round, then author, then hash. */
  lemma LinearizationShape(d: Dag)
    requires WellFormed(d)
    ensures var s := Linearization(d);
            && NoDup(s) && |s| == |d|
            && (forall h :: h in s <==> h in d)
            && (forall i, j | 0 <= i < |s| && 0 <= j < |s| && s[j] in d && s[i] in d[s[j]].parents :: i < j)
            && (forall i, j | 0 <= i < j < |s| && s[i] in d && s[j] in d :: KeyBefore(d[s[i]], s[i], d[s[j]], s[j]))
  {
    var s := Linearization(d);
    SortedNoDup(d, s);
    NoDupSize(s);
    assert Elems(s) == d.Keys;
    forall i, j | 0 <= i < |s| && 0 <= j < |s| && s[i] in d[s[j]].parents ensures i < j {
      SortedPosition(d, s, i, j);
    }
  }

  lemma {:induction false} NoDupSize<T>(s: seq<T>)
    requires NoDup(s)
    ensures |Elems(s)| == |s|
  {
    if s != [] {
      NoDupSize(s[1..]);
      assert s == [s[0]] + s[1..];
      assert Elems(s) == {s[0]} + Elems(s[1..]);
      assert s[0] !in s[1..];
    } else {
      assert Elems(s) == {};
    }
  }
}
