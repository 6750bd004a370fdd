/** What the balance primitives do, address by address and to the supply. */
module Moves {
  import opened Balances
  import opened Intents

  /** The move takes from nobody but `from`. */
  ghost predicate OnlyDrains(b: Ledger, c: Ledger, from: Address)
  {
    forall q | q != from :: Bal(b, q) <= Bal(c, q)
  }

  /** `from` pays `x` to `to` and no one else notices. */
  ghost predicate Pays(b: Ledger, c: Ledger, from: Address, to: Address, x: nat)
  {
    && x <= Bal(b, from)
    && (from == to ==> forall q :: Bal(c, q) == Bal(b, q))
    && (from != to ==> Bal(c, from) == Bal(b, from) - x && Bal(c, to) == Bal(b, to) + x)
    && forall q | q != from && q != to :: Bal(c, q) == Bal(b, q)
  }

  lemma TransferInternalPays(b: Ledger, from: Address, to: Address, x: nat)
    ensures var m := TransferInternal(b, from, to, x);
            && (m.outcome.Ok? ==> Pays(b, m.balances, from, to, x) && Supply(m.balances) == Supply(b))
            && (m.outcome.Err? ==> m.balances == b)
            && (m.outcome.Ok? <==> x <= Bal(b, from) && (x == 0 || from == to || Bal(b, to) + x <= U128_MAX))
            && (Sound(b) ==> Sound(m.balances))
  {
    if 0 < x <= Bal(b, from) && from != to {
      SupplyDebit(b, from, x);
      SupplyCredit(Debit(b, from, x), to, x);
    }
  }

  lemma DebitThenCreditPays(b: Ledger, from: Address, to: Address, x: nat)
    ensures var m := DebitThenCredit(b, from, to, x);
            && (m.outcome.Ok? ==> Pays(b, m.balances, from, to, x) && Supply(m.balances) == Supply(b))
            && (m.outcome.Err? && Bal(b, from) < x ==> m.balances == b)
            && (m.outcome.Err? && Bal(b, from) >= x ==> x > 0 && m.balances == Debit(b, from, x))
            && (m.outcome.Ok? <==>
                  (x <= Bal(b, from) && (x == 0 || (if from == to then Bal(b, to) else Bal(b, to) + x) <= U128_MAX)))
            && (Sound(b) ==> Sound(m.balances))
            && OnlyDrains(b, m.balances, from)
  {
    if 0 < x <= Bal(b, from) {
      SupplyDebit(b, from, x);
      SupplyCredit(Debit(b, from, x), to, x);
    }
  }

  /** While the supply fits u128 a payment can only fail for lack of funds. */
  lemma PaymentsFit(b: Ledger, from: Address, to: Address, x: nat)
    requires Supply(b) <= U128_MAX
    ensures DebitThenCredit(b, from, to, x).outcome.Ok? <==> x <= Bal(b, from)
    ensures TransferInternal(b, from, to, x).outcome.Ok? <==> x <= Bal(b, from)
    ensures DebitThenCredit(b, from, to, x).outcome.Err? ==> DebitThenCredit(b, from, to, x).balances == b
  {
    DebitThenCreditPays(b, from, to, x);
    TransferInternalPays(b, from, to, x);
    SupplyBounds(b, from, to);
  }

  lemma CreditManyPays(b: Ledger, cs: Credits)
    ensures var m := CreditManyAtomic(b, cs);
            && (m.outcome.Ok? ==> (forall a :: Bal(m.balances, a) == Bal(b, a) + SumTo(cs, a))
                                  && Supply(m.balances) == Supply(b) + Total(cs))
            && (m.outcome.Err? ==> m.balances == b)
            && (m.outcome.Ok? <==> CreditsFit(b, cs))
            && (Sound(b) ==> Sound(m.balances))
  {
    FirstOverflowIff(b, cs);
    CreditAllPointwise(b, cs);
    if Sound(b) && CreditsFit(b, cs) { CreditAllSound(b, cs); }
  }

  lemma CreditsFitUnderSupply(b: Ledger, cs: Credits)
    requires Supply(b) + Total(cs) <= U128_MAX
    ensures CreditsFit(b, cs)
  {
    forall a ensures Bal(b, a) + SumTo(cs, a) <= U128_MAX {
      SupplyBounds(b, a, a);
      SumToBounded(cs, a);
    }
  }

  /** The pointwise meaning of draining `from` by the whole list and crediting
      every entry, repeated recipients and the source among them included. */
  lemma DrainPays(b: Ledger, from: Address, cs: Credits)
    ensures var m := DrainAndCreditAtomic(b, from, cs);
            && (m.outcome.Ok? ==>
                  && Total(cs) <= Bal(b, from)
                  && (forall a :: Bal(m.balances, a)
                                == Bal(b, a) + SumTo(cs, a) - if a == from then Total(cs) else 0)
                  && Supply(m.balances) == Supply(b))
            && (m.outcome.Err? ==> m.balances == b)
            && (m.outcome.Ok? <==> Total(cs) == 0 || (Total(cs) <= Lesser(U128_MAX, Bal(b, from))
                                      && CreditsFit(Debit(b, from, Total(cs)), cs)))
            && (Sound(b) ==> Sound(m.balances))
  {
    if Total(cs) == 0 {
      forall a ensures SumTo(cs, a) == 0 { SumToBounded(cs, a); }
    } else if Total(cs) <= Lesser(U128_MAX, Bal(b, from)) {
      SupplyDebit(b, from, Total(cs));
      CreditManyPays(Debit(b, from, Total(cs)), cs);
    }
  }

  lemma DrainFits(b: Ledger, from: Address, cs: Credits)
    requires Supply(b) <= U128_MAX
    ensures DrainAndCreditAtomic(b, from, cs).outcome.Ok? <==> Total(cs) <= Bal(b, from)
  {
    DrainPays(b, from, cs);
    SupplyBounds(b, from, from);
    if Total(cs) <= Bal(b, from) {
      SupplyDebit(b, from, Total(cs));
      CreditsFitUnderSupply(Debit(b, from, Total(cs)), cs);
    }
  }

  /** The batch helpers succeed or fail alike, and do the same, for any
      reordering of their list. */
  lemma BatchesIgnoreOrder(b: Ledger, from: Address, cs: Credits, ds: Credits)
    requires Sound(b) && multiset(cs) == multiset(ds)
    ensures CreditManyAtomic(b, cs).outcome.Ok? <==> CreditManyAtomic(b, ds).outcome.Ok?
    ensures CreditManyAtomic(b, cs).balances == CreditManyAtomic(b, ds).balances
    ensures DrainAndCreditAtomic(b, from, cs).outcome.Ok? <==> DrainAndCreditAtomic(b, from, ds).outcome.Ok?
    ensures DrainAndCreditAtomic(b, from, cs).balances == DrainAndCreditAtomic(b, from, ds).balances
  {
    CreditsIgnoreOrder(b, cs, ds);
    forall a ensures SumTo(cs, a) == SumTo(ds, a) && Total(cs) == Total(ds) {
      SumToPermutes(cs, ds, a);
    }
    assert Total(cs) == Total(ds) by { SumToPermutes(cs, ds, TREASURY); }
    if Total(cs) <= Bal(b, from) {
      CreditsIgnoreOrder(Debit(b, from, Total(cs)), cs, ds);
    }
  }

  lemma CreditsIgnoreOrder(b: Ledger, cs: Credits, ds: Credits)
    requires Sound(b) && multiset(cs) == multiset(ds)
    ensures CreditManyAtomic(b, cs).outcome.Ok? <==> CreditManyAtomic(b, ds).outcome.Ok?
    ensures CreditManyAtomic(b, cs).balances == CreditManyAtomic(b, ds).balances
  {
    CreditManyPays(b, cs);
    CreditManyPays(b, ds);
    forall a ensures SumTo(cs, a) == SumTo(ds, a) { SumToPermutes(cs, ds, a); }
    assert CreditsFit(b, cs) <==> CreditsFit(b, ds);
    if CreditsFit(b, cs) {
      SameBalancesSameLedger(CreditManyAtomic(b, cs).balances, CreditManyAtomic(b, ds).balances);
    }
  }

  /** Crediting in turn never takes anything, and while everything fits it is
      crediting the whole list. */
  lemma {:induction false} CreditInTurnPays(b: Ledger, cs: Credits)
    ensures var m := CreditInTurn(b, cs);
            && (m.outcome.Ok? ==> forall a :: Bal(m.balances, a) == Bal(b, a) + SumTo(cs, a))
            && (m.outcome.Ok? ==> Supply(m.balances) == Supply(b) + Total(cs))
            && (m.outcome.Ok? <==> CreditsFit(b, cs))
            && (forall a :: Bal(b, a) <= Bal(m.balances, a))
            && (Sound(b) ==> Sound(m.balances))
    decreases |cs|
  {
    if cs != [] {
      var init := cs[..|cs| - 1];
      var (to, x) := cs[|cs| - 1];
      CreditInTurnPays(b, init);
      var m := CreditInTurn(b, init);
      assert forall a :: SumTo(cs, a) == SumTo(init, a) + if a == to then x else 0;
      SupplyCredit(m.balances, to, x);
    }
  }

  /** After its first failure a list of credits stands still. */
  lemma {:induction false} InTurnStops(b: Ledger, cs: Credits, k: nat)
    requires k <= |cs| && CreditInTurn(b, cs[..k]).outcome.Err?
    ensures CreditInTurn(b, cs) == CreditInTurn(b, cs[..k])
    decreases |cs|
  {
    if k == |cs| {
      assert cs[..k] == cs;
    } else {
      assert cs[..|cs| - 1][..k] == cs[..k];
      InTurnStops(b, cs[..|cs| - 1], k);
    }
  }

  lemma WaterfallTotals(x: nat)
    requires InsuranceShare(x) <= x
    ensures Total(Waterfall(x)) == x
    ensures forall a :: SumTo(Waterfall(x), a)
                     == if a == INSURANCE then InsuranceShare(x) else if a == TREASURY then x - InsuranceShare(x) else 0
  {
    var w := Waterfall(x);
    assert [w[0]] + [w[1]] == w;
    forall a ensures SumTo(w, a) == (if w[0].0 == a then w[0].1 else 0) + (if w[1].0 == a then w[1].1 else 0) {
      SumToSplits([w[0]], [w[1]], a);
      SingleCredit(w[0], a);
      SingleCredit(w[1], a);
    }
    SumToSplits([w[0]], [w[1]], TREASURY);
    SingleCredit(w[0], TREASURY);
    SingleCredit(w[1], TREASURY);
  }

  ghost function AfterSlash(b: Ledger, bond: Address, slash: nat, a: Address): int
    requires InsuranceShare(slash) <= slash
  {
    if a == bond then Bal(b, bond) - slash
    else if a == INSURANCE then Bal(b, a) + InsuranceShare(slash)
    else if a == TREASURY then Bal(b, a) + (slash - InsuranceShare(slash))
    else Bal(b, a)
  }

  /** A slash takes `slash` from the bond and gives it all to the insurance pool
      and the treasury. */
  lemma SlashPays(b: Ledger, bond: Address, slash: nat)
    requires InsuranceShare(slash) <= slash <= Bal(b, bond) && bond != INSURANCE && bond != TREASURY
    ensures var m := SlashMoves(b, bond, slash);
            && (m.outcome.Ok? ==> Supply(m.balances) == Supply(b))
            && (m.outcome.Ok? ==> forall a :: Bal(m.balances, a) == AfterSlash(b, bond, slash, a))
            && (m.outcome.Ok? <==> slash == 0 || CreditsFit(Debit(b, bond, slash), Waterfall(slash)))
            && OnlyDrains(b, m.balances, bond)
            && Bal(m.balances, bond) >= Bal(b, bond) - slash
            && (Sound(b) ==> Sound(m.balances))
  {
    var d := DebitUnchecked(b, bond, slash);
    WaterfallTotals(slash);
    CreditInTurnPays(d.balances, Waterfall(slash));
    SupplyDebit(b, bond, slash);
    assert d.balances == Debit(b, bond, slash) || slash == 0;
    assert slash == 0 ==> CreditsFit(b, Waterfall(0));
  }

  lemma SlashFits(b: Ledger, bond: Address, slash: nat)
    requires Supply(b) <= U128_MAX
    requires InsuranceShare(slash) <= slash <= Bal(b, bond) && bond != INSURANCE && bond != TREASURY
    ensures SlashMoves(b, bond, slash).outcome.Ok?
  {
    SlashPays(b, bond, slash);
    SupplyDebit(b, bond, slash);
    WaterfallTotals(slash);
    CreditsFitUnderSupply(Debit(b, bond, slash), Waterfall(slash));
  }

  /** The release-build slash of a bond is at most a twentieth of it. */
  lemma LivenessSlashIsSmall(bond: nat)
    ensures 20 * LivenessSlash(bond) <= bond
    ensures bond > 0 ==> LivenessSlash(bond) < bond
    ensures bond * LIVENESS_SLASH_BPS <= U128_MAX ==> LivenessSlash(bond) == bond / 20
  {
  }

  /** The treasury's share of a slash covers the snitch bounty for it. */
  lemma TreasuryShareCoversBounty(slash: nat)
    requires InsuranceShare(slash) <= slash
    ensures SnitchBounty(slash) <= slash - InsuranceShare(slash)
  {
  }

  lemma BountyPays(b: Ledger, to: Address, bounty: nat)
    requires to != TREASURY
    ensures var m := PayBounty(b, to, bounty);
            var paid := Lesser(bounty, Bal(b, TREASURY));
            && (m.outcome.Ok? ==> Pays(b, m.balances, TREASURY, to, paid) && Supply(m.balances) == Supply(b))
            && (m.outcome.Ok? <==> paid == 0 || Bal(b, to) + paid <= U128_MAX)
            && (m.outcome.Err? ==> m.balances == Debit(b, TREASURY, paid))
            && OnlyDrains(b, m.balances, TREASURY)
            && (Sound(b) ==> Sound(m.balances))
  {
    DebitThenCreditPays(b, TREASURY, to, Lesser(bounty, Bal(b, TREASURY)));
  }
}
