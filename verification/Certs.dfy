/** Certificates of the DagBft-C DAG (cert.rs).

    A certificate hash is a 32-byte string compared byte by byte; it is kept
    here as the number those bytes spell in big-endian, so the order on hashes
    is the order on numbers.  The detached signature is not part of the hash
    and no function of the consensus crate modelled here reads it. */
module Certs {
  import opened Sets

  type CertHash = nat
  type AuthorityId = nat
  type Round = nat

  datatype Certificate = Certificate(
    author: AuthorityId,
    round: Round,
    parents: seq<CertHash>,
    payload: nat)

  /** The content of a store: certificates keyed by their hash. */
  type Dag = map<CertHash, Certificate>

  /** What every store built by `insert` satisfies: parents are present and
      come from strictly earlier rounds. */
  ghost predicate WellFormed(d: Dag)
  {
    forall h, p | h in d && p in d[h].parents :: p in d && d[p].round < d[h].round
  }

  /** `e` holds everything `d` holds, under the same hashes. */
  ghost predicate Extends(d: Dag, e: Dag)
  {
    forall h | h in d :: h in e && e[h] == d[h]
  }

  /** The linearization order: round, then author, then hash. */
  predicate Less(d: Dag, x: CertHash, y: CertHash)
    requires x in d && y in d
  {
    || d[x].round < d[y].round
    || (d[x].round == d[y].round && d[x].author < d[y].author)
    || (d[x].round == d[y].round && d[x].author == d[y].author && x < y)
  }

  ghost predicate AllIn(d: Dag, s: seq<CertHash>)
  {
    forall i | 0 <= i < |s| :: s[i] in d
  }

  /** Every certificate is stored under its own hash. */
  ghost predicate KeyedBy(H: Certificate -> CertHash, d: Dag)
  {
    forall h | h in d :: H(d[h]) == h
  }

  ghost predicate Sorted(d: Dag, s: seq<CertHash>)
    requires AllIn(d, s)
  {
    forall i, j | 0 <= i < j < |s| :: Less(d, s[i], s[j])
  }

  ghost function Elems<T>(s: seq<T>): set<T>
  {
    set x | x in s
  }

  function InsertSorted(d: Dag, x: CertHash, s: seq<CertHash>): (r: seq<CertHash>)
    requires x in d && AllIn(d, s)
    ensures |r| == |s| + 1
    ensures forall y :: y in r <==> y == x || y in s
    ensures AllIn(d, r)
  {
    if s == [] || Less(d, x, s[0]) then [x] + s
    else
      var rest := InsertSorted(d, x, s[1..]);
      assert s == [s[0]] + s[1..];
      [s[0]] + rest
  }

  lemma {:induction false} InsertSortedKeepsOrder(d: Dag, x: CertHash, s: seq<CertHash>)
    requires x in d && AllIn(d, s) && Sorted(d, s) && x !in s
    ensures Sorted(d, InsertSorted(d, x, s))
  {
    if s != [] && !Less(d, x, s[0]) {
      InsertSortedKeepsOrder(d, x, s[1..]);
      var rest := InsertSorted(d, x, s[1..]);
      forall j | 0 <= j < |rest| ensures Less(d, s[0], rest[j]) {
        assert rest[j] in rest;
        if rest[j] != x {
          assert rest[j] in s[1..];
        }
      }
    }
  }

  /** The library sort of a list of hashes by (round, author, hash). */
  function SortByKey(d: Dag, s: seq<CertHash>): (r: seq<CertHash>)
    requires AllIn(d, s)
    ensures |r| == |s|
    ensures forall y :: y in r <==> y in s
    ensures AllIn(d, r)
  {
    if s == [] then []
    else
      assert s == [s[0]] + s[1..];
      InsertSorted(d, s[0], SortByKey(d, s[1..]))
  }

  lemma {:induction false} SortByKeySorts(d: Dag, s: seq<CertHash>)
    requires AllIn(d, s) && NoDup(s)
    ensures Sorted(d, SortByKey(d, s))
  {
    if s != [] {
      SortByKeySorts(d, s[1..]);
      assert s[0] !in s[1..];
      InsertSortedKeepsOrder(d, s[0], SortByKey(d, s[1..]));
    }
  }

  /** The strictly sorted listing of a set of hashes. */
  ghost function Ordered(d: Dag, s: set<CertHash>): (r: seq<CertHash>)
    requires s <= d.Keys
    ensures AllIn(d, r) && Sorted(d, r)
    ensures forall y :: y in r <==> y in s
    decreases |s|
  {
    if s == {} then []
    else
      var x :| x in s;
      var rest := Ordered(d, s - {x});
      InsertSortedKeepsOrder(d, x, rest);
      InsertSorted(d, x, rest)
  }

  /** A strictly sorted listing is determined by its members. */
  lemma {:induction false} SortedUnique(d: Dag, s: seq<CertHash>, t: seq<CertHash>)
    requires AllIn(d, s) && AllIn(d, t)
    requires Sorted(d, s) && Sorted(d, t)
    requires forall y :: y in s <==> y in t
    ensures s == t
    decreases |s|
  {
    assert s != [] ==> s[0] in t;
    assert t != [] ==> t[0] in s;
    if s != [] && t != [] {
      assert s[0] == t[0];
      forall y ensures y in s[1..] <==> y in t[1..] {
        assert y in s[1..] ==> y in s && y != s[0];
        assert y in t[1..] ==> y in t && y != t[0];
        assert y in s && y != s[0] ==> y in s[1..];
        assert y in t && y != t[0] ==> y in t[1..];
      }
      SortedUnique(d, s[1..], t[1..]);
      assert s == [s[0]] + s[1..] && t == [t[0]] + t[1..];
    }
  }

  /** Sorting any listing of a set gives the set's ordered listing, so the
      order in which a hash set is iterated cannot show. */
  lemma SortIsOrdered(d: Dag, s: seq<CertHash>, m: set<CertHash>)
    requires AllIn(d, s) && NoDup(s) && m <= d.Keys
    requires forall y :: y in s <==> y in m
    ensures SortByKey(d, s) == Ordered(d, m)
  {
    SortByKeySorts(d, s);
    SortedUnique(d, SortByKey(d, s), Ordered(d, m));
  }

  /** In a sorted listing, positions follow the order. */
  lemma SortedPosition(d: Dag, s: seq<CertHash>, i: nat, j: nat)
    requires AllIn(d, s) && Sorted(d, s) && i < |s| && j < |s|
    requires i != j && !Less(d, s[j], s[i])
    ensures i < j
  {
  }

  lemma GreatestIsLast(d: Dag, s: seq<CertHash>, h: CertHash)
    requires AllIn(d, s) && Sorted(d, s) && h in d && h in s
    requires forall x | x in s :: x in d && (x == h || Less(d, x, h))
    ensures s[|s| - 1] == h
  {
    var k :| 0 <= k < |s| && s[k] == h;
    assert s[|s| - 1] in s;
  }

  lemma SortedNoDup(d: Dag, s: seq<CertHash>)
    requires AllIn(d, s) && Sorted(d, s)
    ensures NoDup(s)
  {
    forall i, j | 0 <= i < j < |s| ensures s[i] != s[j] {
      assert Less(d, s[i], s[j]);
    }
  }

  /** The listing of a set does not change when the DAG grows. */
  lemma OrderedStable(d: Dag, e: Dag, s: set<CertHash>)
    requires s <= d.Keys && Extends(d, e)
    ensures s <= e.Keys
    ensures Ordered(d, s) == Ordered(e, s)
  {
    var r := Ordered(d, s);
    assert AllIn(e, r);
    forall i, j | 0 <= i < j < |r| ensures Less(e, r[i], r[j]) {
      assert Less(d, r[i], r[j]);
    }
    SortedUnique(e, r, Ordered(e, s));
  }
}
