/** The balance map of the ledger: addresses, pointwise reading, the primitive
    debit and credit, and total supply. */
module Balances {

  /** The twenty protocol-owned accounts (reserved.rs). */
  datatype Account =
    | L2Registry | InsurancePool | TreasuryAccount | BridgeEscrow | ForceIncludeRegistry
    | SequencerBond | SafetyBond | AssetRegistry | EjectionRegistry | BurnNullifierRegistry
    | EquivocationRegistry | AuthorityRegistry | ValidatorRegistry
    | AuthorityStakePool | ValidatorStakePool | AuthorityRewardsPool | ValidatorRewardsPool
    | InflationRegistry | RewardsDistributionRegistry | ValidatorDelegationRegistry

  /** A 20-byte address is a user's or exactly one of the reserved ones. */
  datatype Address = User(id: nat) | Reserved(account: Account)

  const TREASURY := Reserved(TreasuryAccount)
  const INSURANCE := Reserved(InsurancePool)
  const ESCROW := Reserved(BridgeEscrow)
  const BOND := Reserved(SequencerBond)
  const SAFETY := Reserved(SafetyBond)

  const U64_MAX: nat := 0xFFFF_FFFF_FFFF_FFFF
  const U128_MAX: nat := 0xFFFF_FFFF_FFFF_FFFF_FFFF_FFFF_FFFF_FFFF

  type Ledger = map<Address, nat>
  type Credits = seq<(Address, nat)>

  /** The balance of an address; zero for any unseen one. */
  function Bal(b: Ledger, a: Address): nat
  {
    if a in b then b[a] else 0
  }

  /** Zero balances are absent and every balance fits u128. */
  ghost predicate Sound(b: Ledger)
  {
    forall a | a in b :: 0 < b[a] <= U128_MAX
  }

  /** A sound map is determined by its balances, which is what makes the state
      root canonical. */
  lemma SameBalancesSameLedger(b: Ledger, c: Ledger)
    requires Sound(b) && Sound(c) && forall a :: Bal(b, a) == Bal(c, a)
    ensures b == c
  {
    forall a ensures a in b <==> a in c {
      assert Bal(b, a) == Bal(c, a);
    }
    forall a | a in b ensures b[a] == c[a] {
      assert Bal(b, a) == Bal(c, a);
    }
  }

  function SetBal(b: Ledger, a: Address, v: nat): Ledger
  {
    if v == 0 then b - {a} else b[a := v]
  }

  function Debit(b: Ledger, a: Address, x: nat): (c: Ledger)
    requires x <= Bal(b, a)
    ensures forall q :: Bal(c, q) == if q == a then Bal(b, a) - x else Bal(b, q)
    ensures Sound(b) ==> Sound(c)
  {
    SetBal(b, a, Bal(b, a) - x)
  }

  function Credit(b: Ledger, a: Address, x: nat): (c: Ledger)
    ensures forall q :: Bal(c, q) == if q == a then Bal(b, a) + x else Bal(b, q)
    ensures Sound(b) && Bal(b, a) + x <= U128_MAX ==> Sound(c)
  {
    SetBal(b, a, Bal(b, a) + x)
  }

  // ----- Sums -----

  /** The sum of a map's values. */
  ghost function Sum<K(!new)>(m: map<K, nat>): nat
    decreases |m|
  {
    if m == map[] then 0
    else
      var k :| k in m;
      m[k] + Sum(m - {k})
  }

  lemma {:induction false} SumOne<K(!new)>(m: map<K, nat>, k: K)
    requires k in m
    ensures Sum(m) == m[k] + Sum(m - {k})
    decreases |m|
  {
    var j :| j in m && Sum(m) == m[j] + Sum(m - {j});
    if j != k {
      SumOne(m - {j}, k);
      SumOne(m - {k}, j);
      assert m - {j} - {k} == m - {k} - {j};
    }
  }

  lemma SumRemove<K(!new)>(m: map<K, nat>, k: K)
    ensures Sum(m) == Sum(m - {k}) + (if k in m then m[k] else 0)
  {
    if k in m {
      SumOne(m, k);
    } else {
      assert m - {k} == m;
    }
  }

  lemma SumUpdate<K(!new)>(m: map<K, nat>, k: K, v: nat)
    ensures Sum(m[k := v]) == Sum(m) - (if k in m then m[k] else 0) + v
  {
    SumRemove(m, k);
    SumOne(m[k := v], k);
    assert m[k := v] - {k} == m - {k};
  }

  lemma SumBoundsEach<K(!new)>(m: map<K, nat>, k: K)
    requires k in m
    ensures m[k] <= Sum(m)
  {
    SumOne(m, k);
  }

  ghost function Supply(b: Ledger): nat
  {
    Sum(b)
  }

  lemma SupplySetBal(b: Ledger, a: Address, v: nat)
    ensures Supply(SetBal(b, a, v)) == Supply(b) - Bal(b, a) + v
  {
    SumRemove(b, a);
    SumUpdate(b, a, v);
  }

  lemma SupplyDebit(b: Ledger, a: Address, x: nat)
    requires x <= Bal(b, a)
    ensures Supply(Debit(b, a, x)) == Supply(b) - x
  {
    SupplySetBal(b, a, Bal(b, a) - x);
  }

  lemma SupplyCredit(b: Ledger, a: Address, x: nat)
    ensures Supply(Credit(b, a, x)) == Supply(b) + x
  {
    SupplySetBal(b, a, Bal(b, a) + x);
  }

  /** No balance exceeds the supply, and two different ones fit in it together. */
  lemma SupplyBounds(b: Ledger, a: Address, c: Address)
    ensures Bal(b, a) <= Supply(b)
    ensures a != c ==> Bal(b, a) + Bal(b, c) <= Supply(b)
  {
    SumRemove(b, a);
    SumRemove(b - {a}, c);
  }

  // ----- Lists of credits -----

  function Total(cs: Credits): nat
  {
    if cs == [] then 0 else Total(cs[..|cs| - 1]) + cs[|cs| - 1].1
  }

  /** What the list credits to one address. */
  function SumTo(cs: Credits, a: Address): nat
  {
    if cs == [] then 0
    else SumTo(cs[..|cs| - 1], a) + (if cs[|cs| - 1].0 == a then cs[|cs| - 1].1 else 0)
  }

  /** Crediting one entry after the other. */
  function CreditAll(b: Ledger, cs: Credits): Ledger
  {
    if cs == [] then b else Credit(CreditAll(b, cs[..|cs| - 1]), cs[|cs| - 1].0, cs[|cs| - 1].1)
  }

  ghost predicate CreditsFit(b: Ledger, cs: Credits)
  {
    forall a :: SumTo(cs, a) > 0 ==> Bal(b, a) + SumTo(cs, a) <= U128_MAX
  }

  /** The first entry whose running balance leaves u128, if any. */
  function FirstOverflow(b: Ledger, cs: Credits): seq<Address>
  {
    if cs == [] then []
    else
      var earlier := FirstOverflow(b, cs[..|cs| - 1]);
      var (to, x) := cs[|cs| - 1];
      if earlier != [] then earlier
      else if x > 0 && Bal(b, to) + SumTo(cs, to) > U128_MAX then [to]
      else []
  }

  lemma {:induction false} FirstOverflowIff(b: Ledger, cs: Credits)
    ensures FirstOverflow(b, cs) == [] <==> CreditsFit(b, cs)
  {
    if cs != [] {
      var init := cs[..|cs| - 1];
      var (to, x) := cs[|cs| - 1];
      FirstOverflowIff(b, init);
      assert forall a :: SumTo(cs, a) == SumTo(init, a) + if a == to then x else 0;
    }
  }

  /** A list of credits acts pointwise: each address gains its own total. */
  lemma {:induction false} CreditAllPointwise(b: Ledger, cs: Credits)
    ensures forall a :: Bal(CreditAll(b, cs), a) == Bal(b, a) + SumTo(cs, a)
    ensures Supply(CreditAll(b, cs)) == Supply(b) + Total(cs)
  {
    if cs != [] {
      CreditAllPointwise(b, cs[..|cs| - 1]);
      SupplyCredit(CreditAll(b, cs[..|cs| - 1]), cs[|cs| - 1].0, cs[|cs| - 1].1);
    }
  }

  lemma {:induction false} CreditAllSound(b: Ledger, cs: Credits)
    requires Sound(b) && CreditsFit(b, cs)
    ensures Sound(CreditAll(b, cs))
  {
    if cs != [] {
      var init := cs[..|cs| - 1];
      var (to, x) := cs[|cs| - 1];
      assert forall a :: SumTo(cs, a) == SumTo(init, a) + if a == to then x else 0;
      assert CreditsFit(b, init) by {
        forall a | SumTo(init, a) > 0 ensures Bal(b, a) + SumTo(init, a) <= U128_MAX {
          assert SumTo(cs, a) >= SumTo(init, a);
        }
      }
      CreditAllSound(b, init);
      CreditAllPointwise(b, init);
      if x == 0 {
        assert Credit(CreditAll(b, init), to, 0) == CreditAll(b, init);
      } else {
        assert Bal(b, to) + SumTo(cs, to) <= U128_MAX;
      }
    }
  }

  lemma {:induction false} SumToBounded(cs: Credits, a: Address)
    ensures SumTo(cs, a) <= Total(cs)
  {
    if cs != [] { SumToBounded(cs[..|cs| - 1], a); }
  }

  lemma {:induction false} SumToSplits(cs: Credits, ds: Credits, a: Address)
    ensures SumTo(cs + ds, a) == SumTo(cs, a) + SumTo(ds, a)
    ensures Total(cs + ds) == Total(cs) + Total(ds)
    decreases |ds|
  {
    if ds == [] {
      assert cs + ds == cs;
    } else {
      assert (cs + ds)[..|cs + ds| - 1] == cs + ds[..|ds| - 1];
      SumToSplits(cs, ds[..|ds| - 1], a);
    }
  }

  /** Taking one entry out of the middle of a list. */
  lemma TakeOut(ds: Credits, i: nat, a: Address)
    requires i < |ds|
    ensures var rest := ds[..i] + ds[i + 1..];
            && SumTo(ds, a) == SumTo(rest, a) + (if ds[i].0 == a then ds[i].1 else 0)
            && Total(ds) == Total(rest) + ds[i].1
            && multiset(ds) == multiset(rest) + multiset{ds[i]}
  {
    var x := ds[i];
    assert ds == (ds[..i] + [x]) + ds[i + 1..];
    SumToSplits(ds[..i], ds[i + 1..], a);
    SumToSplits(ds[..i] + [x], ds[i + 1..], a);
    SumToSplits(ds[..i], [x], a);
    SingleCredit(x, a);
  }

  /** Totals ignore the order of the list. */
  lemma {:induction false} SumToPermutes(cs: Credits, ds: Credits, a: Address)
    requires multiset(cs) == multiset(ds)
    ensures SumTo(cs, a) == SumTo(ds, a) && Total(cs) == Total(ds)
    decreases |cs|
  {
    assert |cs| == |multiset(cs)| == |multiset(ds)| == |ds|;
    if cs != [] {
      var n := |cs| - 1;
      TakeOut(cs, n, a);
      assert cs[..n] + cs[n + 1..] == cs[..n];
      assert cs[n] in multiset(ds);
      var i :| 0 <= i < |ds| && ds[i] == cs[n];
      TakeOut(ds, i, a);
      assert multiset(cs[..n]) == multiset(cs) - multiset{cs[n]};
      assert multiset(ds[..i] + ds[i + 1..]) == multiset(ds) - multiset{cs[n]};
      SumToPermutes(cs[..n], ds[..i] + ds[i + 1..], a);
    }
  }

  lemma SingleCredit(x: (Address, nat), a: Address)
    ensures SumTo([x], a) == (if x.0 == a then x.1 else 0) && Total([x]) == x.1
  {
    assert [x][..0] == [];
    assert SumTo([x][..0], a) == 0 && Total([x][..0]) == 0;
  }
}
