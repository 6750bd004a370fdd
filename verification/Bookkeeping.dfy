/** Double-entry bookkeeping: every attempt is a short list of postings, each from one
    account to another, out of nothing (a mint) or into nothing (a loss); and every
    balance of every run is what its postings make it. */
module Bookkeeping {
  import opened Balances
  import opened Registries
  import opened Intents
  import opened Moves
  import opened RegistryFrame
  import opened SupplyLedger
  import opened SupplyAccount
  import opened Effects

  datatype Side = Holder(who: Address) | Nowhere

  datatype Posting = Posting(from: Side, to: Side, amount: nat)

  ghost function Income(ps: seq<Posting>, a: Address): nat
  {
    if ps == [] then 0 else Income(ps[1..], a) + if ps[0].to == Holder(a) then ps[0].amount else 0
  }

  ghost function Outgo(ps: seq<Posting>, a: Address): nat
  {
    if ps == [] then 0 else Outgo(ps[1..], a) + if ps[0].from == Holder(a) then ps[0].amount else 0
  }

  /** Posting `ps` to the balances `b` gives `c`. */
  ghost predicate Posts(b: Ledger, ps: seq<Posting>, c: Ledger)
  {
    forall a :: Bal(c, a) + Outgo(ps, a) == Bal(b, a) + Income(ps, a)
  }

  // ----- The postings of each intent -----

  function Pay(from: Address, to: Address, x: nat): Posting
  {
    Posting(Holder(from), Holder(to), x)
  }

  function Lose(from: Address, x: nat): Posting
  {
    Posting(Holder(from), Nowhere, x)
  }

  /** One posting for each entry of a list. */
  function PayEach(from: Side, cs: Credits): seq<Posting>
  {
    if cs == [] then [] else [Posting(from, Holder(cs[|cs| - 1].0), cs[|cs| - 1].1)] + PayEach(from, cs[..|cs| - 1])
  }

  function PaymentPostings(b: Ledger, from: Address, to: Address, x: nat): seq<Posting>
  {
    if x > Bal(b, from) then []
    else if PaymentFails(b, from, to, x) then [Lose(from, x)]
    else [Pay(from, to, x)]
  }

  function SlashPostings(b: Ledger, from: Address, x: nat): seq<Posting>
  {
    ShareFits(x);
    var share := InsuranceShare(x);
    if CreditFails(b, INSURANCE, share) then [Lose(from, x)]
    else if CreditFails(b, TREASURY, x - share) then [Pay(from, INSURANCE, share), Lose(from, x - share)]
    else [Pay(from, INSURANCE, share), Pay(from, TREASURY, x - share)]
  }

  function BountyPostings(b: Ledger, who: Address, bounty: nat): seq<Posting>
  {
    if CreditFails(b, who, bounty) then [Lose(TREASURY, bounty)] else [Pay(TREASURY, who, bounty)]
  }

  function StrikePostings(b: Ledger, who: Address): seq<Posting>
  {
    var slash := LivenessSlash(Bal(b, BOND));
    SlashPostings(b, BOND, slash)
    + if who.User? && SlashLoss(b, slash) == 0 then BountyPostings(b, who, Lesser(slash / 10, 1_000_000)) else []
  }

  /** The postings of an intent that is applied, or that fails after its checks. */
  ghost function Postings(s: State, i: Intent): seq<Posting>
  {
    var b, ok := s.balances, Apply(s, i).outcome.Ok?;
    match i
    case Transfer(from, to, x) => if ok then [Pay(from, to, x)] else []
    case GenesisAllocation(cs) => if ok then PayEach(Nowhere, cs) else []
    case MintInflation(_, x, y, z) =>
      if !ok then []
      else [Posting(Nowhere, Holder(Reserved(AuthorityRewardsPool)), x),
            Posting(Nowhere, Holder(Reserved(ValidatorRewardsPool)), y),
            Posting(Nowhere, Holder(TREASURY), z)]
    case DistributeRewards(_, ring, cs) => if ok then PayEach(Holder(RewardsPool(ring)), cs) else []
    case Delegate(from, _, x) => if ok then [Pay(from, Reserved(ValidatorStakePool), x)] else []
    case DepositStake(ring, from, _, x) => if ok then [Pay(from, StakePool(ring), x)] else []
    case WithdrawStake(ring, to, _, x) => if ok then [Pay(StakePool(ring), to, x)] else []
    case Eject(ring, id) =>
      if ok then SlashPostings(b, StakePool(ring), Lesser(Slot(s.reg, ring, id).deposited, Bal(b, StakePool(ring))))
      else []
    case SlashSequencer(reason, id) =>
      (match reason
       case MissedForceInclude =>
         if PendingIn(s, id) then StrikePostings(b, s.reg.obligations[id].submitter) else []
       case Downtime => []
       case _ => if id in s.reg.offenses then [] else SlashPostings(b, SAFETY, Bal(b, SAFETY)))
    case EjectSequencer(id, who) =>
      if Gate(s, i) == []
      then BountyPostings(b, who, Lesser(Lesser(LivenessSlash(Bal(b, BOND)) / 10, 1_000_000), Bal(b, TREASURY)))
      else []
    case DistributeSlashedFunds(cs, insurance, treasury) =>
      var all := SlashedCredits(cs, insurance, treasury);
      if exists c :: c in cs && c.0.Reserved? then [] else PayEach(Nowhere, all[..FittingPrefix(b, all)])
    case _ => if Paying(i) && Gate(s, i) == [] then PaymentPostings(b, Payer(i), Payee(i), i.amount) else []
  }

  // ----- Sums of postings -----

  lemma OnePosting(p: Posting, a: Address)
    ensures Income([p], a) == if p.to == Holder(a) then p.amount else 0
    ensures Outgo([p], a) == if p.from == Holder(a) then p.amount else 0
  {
  }

  lemma {:induction false} PostingsAdd(ps: seq<Posting>, qs: seq<Posting>, a: Address)
    ensures Income(ps + qs, a) == Income(ps, a) + Income(qs, a)
    ensures Outgo(ps + qs, a) == Outgo(ps, a) + Outgo(qs, a)
    decreases |ps|
  {
    if ps == [] {
      assert ps + qs == qs;
    } else {
      assert (ps + qs)[1..] == ps[1..] + qs;
      PostingsAdd(ps[1..], qs, a);
    }
  }

  lemma TwoPostings(p: Posting, q: Posting, a: Address)
    ensures Income([p, q], a) == Income([p], a) + Income([q], a)
    ensures Outgo([p, q], a) == Outgo([p], a) + Outgo([q], a)
  {
    assert [p, q] == [p] + [q];
    PostingsAdd([p], [q], a);
  }

  lemma {:induction false} EachPosting(from: Side, cs: Credits, a: Address)
    ensures Income(PayEach(from, cs), a) == SumTo(cs, a)
    ensures Outgo(PayEach(from, cs), a) == if from == Holder(a) then Total(cs) else 0
    decreases |cs|
  {
    if cs != [] {
      var init, p := cs[..|cs| - 1], Posting(from, Holder(cs[|cs| - 1].0), cs[|cs| - 1].1);
      EachPosting(from, init, a);
      PostingsAdd([p], PayEach(from, init), a);
      OnePosting(p, a);
    }
  }

  // ----- Each kind of move -----

  lemma PayPosts(b: Ledger, c: Ledger, from: Address, to: Address, x: nat)
    requires Pays(b, c, from, to, x)
    ensures Posts(b, [Pay(from, to, x)], c)
  {
    forall a ensures Bal(c, a) + Outgo([Pay(from, to, x)], a) == Bal(b, a) + Income([Pay(from, to, x)], a) {
      OnePosting(Pay(from, to, x), a);
    }
  }

  lemma LosePosts(b: Ledger, from: Address, x: nat)
    requires x <= Bal(b, from)
    ensures Posts(b, [Lose(from, x)], Debit(b, from, x))
  {
    forall a ensures Bal(Debit(b, from, x), a) + Outgo([Lose(from, x)], a) == Bal(b, a) + Income([Lose(from, x)], a) {
      OnePosting(Lose(from, x), a);
    }
  }

  lemma NothingPosts(b: Ledger)
    ensures Posts(b, [], b)
  {
  }

  lemma ZeroPosts(b: Ledger, from: Address, to: Address)
    ensures Posts(b, [Pay(from, to, 0)], b)
  {
    forall a ensures Outgo([Pay(from, to, 0)], a) == 0 && Income([Pay(from, to, 0)], a) == 0 {
      OnePosting(Pay(from, to, 0), a);
    }
  }

  lemma PostsInTurn(b: Ledger, ps: seq<Posting>, c: Ledger, qs: seq<Posting>, d: Ledger)
    requires Posts(b, ps, c) && Posts(c, qs, d)
    ensures Posts(b, ps + qs, d)
  {
    forall a ensures Bal(d, a) + Outgo(ps + qs, a) == Bal(b, a) + Income(ps + qs, a) {
      PostingsAdd(ps, qs, a);
      assert Bal(c, a) + Outgo(ps, a) == Bal(b, a) + Income(ps, a);
      assert Bal(d, a) + Outgo(qs, a) == Bal(c, a) + Income(qs, a);
    }
  }

  lemma PaymentPosts(b: Ledger, c: Ledger, r: Outcome, from: Address, to: Address, x: nat)
    requires PaidInTurn(b, c, r, from, to, x)
    ensures Posts(b, PaymentPostings(b, from, to, x), c)
  {
    if r.Ok? {
      PayPosts(b, c, from, to, x);
    } else if x <= Bal(b, from) {
      LosePosts(b, from, x);
    }
  }

  lemma SplitPosts(b: Ledger, c: Ledger, from: Address, x: nat)
    requires Splits(b, c, from, x) && SlashLoss(b, x) == 0 && from != INSURANCE && from != TREASURY
    ensures Posts(b, SlashPostings(b, from, x), c)
  {
    var p, q := Pay(from, INSURANCE, InsuranceShare(x)), Pay(from, TREASURY, x - InsuranceShare(x));
    forall a ensures Bal(c, a) + Outgo([p, q], a) == Bal(b, a) + Income([p, q], a) {
      TwoPostings(p, q, a);
      OnePosting(p, a);
      OnePosting(q, a);
    }
  }

  /** What a slash that cannot be credited in full leaves. */
  lemma BrokenSplit(b: Ledger, from: Address, x: nat)
    requires InsuranceShare(x) <= x <= Bal(b, from) && from != INSURANCE && from != TREASURY && SlashLoss(b, x) > 0
    ensures SlashMoves(b, from, x).balances
         == if CreditFails(b, INSURANCE, InsuranceShare(x)) || InsuranceShare(x) == 0 then Debit(b, from, x)
            else Credit(Debit(b, from, x), INSURANCE, InsuranceShare(x))
  {
    WaterfallInTurn(Debit(b, from, x), x);
  }

  lemma BrokenPosts(b: Ledger, from: Address, x: nat)
    requires InsuranceShare(x) <= x <= Bal(b, from) && from != INSURANCE && from != TREASURY && SlashLoss(b, x) > 0
    ensures Posts(b, SlashPostings(b, from, x), SlashMoves(b, from, x).balances)
  {
    var share := InsuranceShare(x);
    BrokenSplit(b, from, x);
    if CreditFails(b, INSURANCE, share) {
      LosePosts(b, from, x);
    } else {
      var p, q := Pay(from, INSURANCE, share), Lose(from, x - share);
      var c := SlashMoves(b, from, x).balances;
      forall a ensures Bal(c, a) + Outgo([p, q], a) == Bal(b, a) + Income([p, q], a) {
        TwoPostings(p, q, a);
        OnePosting(p, a);
        OnePosting(q, a);
      }
    }
  }

  lemma SlashPosts(b: Ledger, from: Address, x: nat)
    requires InsuranceShare(x) <= x <= Bal(b, from) && from != INSURANCE && from != TREASURY
    ensures Posts(b, SlashPostings(b, from, x), SlashMoves(b, from, x).balances)
  {
    SlashEffect(b, from, x);
    if SlashLoss(b, x) == 0 {
      SplitPosts(b, SlashMoves(b, from, x).balances, from, x);
    } else {
      BrokenPosts(b, from, x);
    }
  }

  lemma BountyPosts(b: Ledger, c: Ledger, who: Address, bounty: nat)
    requires who.User? && bounty <= Bal(c, TREASURY) && Bal(c, who) == Bal(b, who)
    ensures Posts(c, BountyPostings(b, who, bounty), PayBounty(c, who, bounty).balances)
  {
    PaymentEffect(c, TREASURY, who, bounty);
    PaymentPosts(c, PayBounty(c, who, bounty).balances, PayBounty(c, who, bounty).outcome, TREASURY, who, bounty);
  }

  lemma StrikePosts(b: Ledger, who: Address)
    ensures Posts(b, StrikePostings(b, who), StrikeMove(b, who).balances)
  {
    var slash := LivenessSlash(Bal(b, BOND));
    LivenessSlashIsSmall(Bal(b, BOND));
    ShareFits(slash);
    SlashEffect(b, BOND, slash);
    SlashPosts(b, BOND, slash);
    var m := SlashMoves(b, BOND, slash);
    if who.User? && SlashLoss(b, slash) == 0 {
      SnitchBountyMeans(slash);
      TreasuryShareCoversBounty(slash);
      BountyPosts(b, m.balances, who, SnitchBounty(slash));
      PostsInTurn(b, SlashPostings(b, BOND, slash), m.balances,
                  BountyPostings(b, who, SnitchBounty(slash)), StrikeMove(b, who).balances);
    } else {
      assert StrikePostings(b, who) == SlashPostings(b, BOND, slash);
    }
  }

  lemma EachPosts(b: Ledger, from: Side, cs: Credits, c: Ledger)
    requires forall a :: Bal(c, a) + (if from == Holder(a) then Total(cs) else 0) == Bal(b, a) + SumTo(cs, a)
    ensures Posts(b, PayEach(from, cs), c)
  {
    forall a ensures Bal(c, a) + Outgo(PayEach(from, cs), a) == Bal(b, a) + Income(PayEach(from, cs), a) {
      EachPosting(from, cs, a);
    }
  }

  lemma MintPosts(b: Ledger, c: Ledger, x: nat, y: nat, z: nat)
    requires MintPays(b, c, x, y, z)
    ensures Posts(b, [Posting(Nowhere, Holder(Reserved(AuthorityRewardsPool)), x),
                      Posting(Nowhere, Holder(Reserved(ValidatorRewardsPool)), y),
                      Posting(Nowhere, Holder(TREASURY), z)], c)
  {
    var p := Posting(Nowhere, Holder(Reserved(AuthorityRewardsPool)), x);
    var q := Posting(Nowhere, Holder(Reserved(ValidatorRewardsPool)), y);
    var r := Posting(Nowhere, Holder(TREASURY), z);
    forall a ensures Bal(c, a) + Outgo([p, q, r], a) == Bal(b, a) + Income([p, q, r], a) {
      assert [p, q, r] == [p, q] + [r];
      PostingsAdd([p, q], [r], a);
      TwoPostings(p, q, a);
      OnePosting(p, a);
      OnePosting(q, a);
      OnePosting(r, a);
    }
  }

  // ----- Each intent -----

  ghost predicate IntentPosts(s: State, i: Intent)
  {
    Posts(s.balances, Postings(s, i), Apply(s, i).state.balances)
  }

  lemma StakeIntentPosts(s: State, i: Intent)
    requires i.Transfer? || i.Delegate? || i.DepositStake? || i.WithdrawStake?
    ensures IntentPosts(s, i)
  {
    var c := Apply(s, i).state.balances;
    match i
    case Transfer(from, to, x) =>
      TransferEffect(s, from, to, x);
      if Apply(s, i).outcome.Ok? { PayPosts(s.balances, c, from, to, x); }
    case Delegate(from, id, x) =>
      DelegateEffect(s, from, id, x);
      if x == 0 {
        ZeroPosts(s.balances, from, Reserved(ValidatorStakePool));
      } else if Apply(s, i).outcome.Ok? {
        PayPosts(s.balances, c, from, Reserved(ValidatorStakePool), x);
      }
    case DepositStake(ring, from, id, x) =>
      DepositEffect(s, ring, from, id, x);
      if x == 0 {
        ZeroPosts(s.balances, from, StakePool(ring));
      } else if Apply(s, i).outcome.Ok? {
        PayPosts(s.balances, c, from, StakePool(ring), x);
      }
    case WithdrawStake(ring, to, id, x) =>
      WithdrawEffect(s, ring, to, id, x);
      if x == 0 {
        ZeroPosts(s.balances, StakePool(ring), to);
      } else if Apply(s, i).outcome.Ok? {
        PayPosts(s.balances, c, StakePool(ring), to, x);
      }
  }

  lemma EjectPosts(s: State, ring: Ring, id: nat)
    ensures IntentPosts(s, Eject(ring, id))
  {
    EjectEffect(s, ring, id);
    if id in SlotsOf(s.reg, ring) && Apply(s, Eject(ring, id)).outcome.Ok? {
      var x := Lesser(SlotsOf(s.reg, ring)[id].deposited, Bal(s.balances, StakePool(ring)));
      SplitPosts(s.balances, Apply(s, Eject(ring, id)).state.balances, StakePool(ring), x);
    }
  }

  lemma RewardsPost(s: State, i: Intent)
    requires i.DistributeRewards?
    ensures IntentPosts(s, i)
  {
    RewardsEffect(s, i.epoch, i.ring, i.recipients);
    if Apply(s, i).outcome.Ok? {
      AllUsers(i.recipients);
      EachPosts(s.balances, Holder(RewardsPool(i.ring)), i.recipients, Apply(s, i).state.balances);
    }
  }

  lemma MintIntentPosts(s: State, i: Intent)
    requires i.GenesisAllocation? || i.MintInflation?
    ensures IntentPosts(s, i)
  {
    var c := Apply(s, i).state.balances;
    match i
    case GenesisAllocation(cs) =>
      GenesisEffect(s, cs);
      if Apply(s, i).outcome.Ok? { EachPosts(s.balances, Nowhere, cs, c); }
    case MintInflation(epoch, x, y, z) =>
      MintEffect(s, epoch, x, y, z);
      if Apply(s, i).outcome.Ok? { MintPosts(s.balances, c, x, y, z); }
  }

  lemma DistributionPosts(s: State, i: Intent)
    requires i.DistributeSlashedFunds?
    ensures IntentPosts(s, i)
  {
    var all := SlashedCredits(i.counterparties, i.insuranceShare, i.treasuryShare);
    ApplyParts(s, i);
    AllUsers(i.counterparties);
    if FirstReserved(i.counterparties) == [] {
      InTurnPrefix(s.balances, all);
      EachPosts(s.balances, Nowhere, all[..FittingPrefix(s.balances, all)], Apply(s, i).state.balances);
    }
  }

  lemma PayingPostings(s: State, i: Intent)
    requires Paying(i)
    ensures Postings(s, i) == if Gate(s, i) == [] then PaymentPostings(s.balances, Payer(i), Payee(i), i.amount) else []
  {
  }

  lemma PaymentMoves(b: Ledger, from: Address, to: Address, x: nat)
    ensures Posts(b, PaymentPostings(b, from, to, x), DebitThenCredit(b, from, to, x).balances)
  {
    var m := DebitThenCredit(b, from, to, x);
    PaymentEffect(b, from, to, x);
    PaymentPosts(b, m.balances, m.outcome, from, to, x);
  }

  lemma PayingPosts(s: State, i: Intent)
    requires Paying(i)
    ensures IntentPosts(s, i)
  {
    ApplyParts(s, i);
    PayingPostings(s, i);
    if Gate(s, i) == [] {
      PayingIsPayment(s.balances, s.reg, i);
      PaymentMoves(s.balances, Payer(i), Payee(i), i.amount);
    }
  }

  lemma SlashIntentPosts(s: State, i: Intent)
    requires i.SlashSequencer?
    ensures IntentPosts(s, i)
  {
    ApplyParts(s, i);
    if i.reason == MissedForceInclude {
      StrikeMarksOnly(s, i.offense);
      if PendingIn(s, i.offense) { StrikePosts(s.balances, s.reg.obligations[i.offense].submitter); }
    } else if i.reason != Downtime && i.offense !in s.reg.offenses {
      ShareFits(Bal(s.balances, SAFETY));
      SlashPosts(s.balances, SAFETY, Bal(s.balances, SAFETY));
    }
  }

  lemma EjectSequencerPosts(s: State, i: Intent)
    requires i.EjectSequencer?
    ensures IntentPosts(s, i)
  {
    var b := s.balances;
    ApplyParts(s, i);
    if Gate(s, i) == [] {
      SnitchBountyMeans(LivenessSlash(Bal(b, BOND)));
      BountyPosts(b, b, i.ejector, Lesser(EjectorBounty(b), Bal(b, TREASURY)));
    }
  }

  /** Every attempt, applied or failing, posts exactly its postings. */
  lemma EveryIntentPosts(s: State, i: Intent)
    ensures IntentPosts(s, i)
  {
    if i.Transfer? || i.Delegate? || i.DepositStake? || i.WithdrawStake? {
      StakeIntentPosts(s, i);
    } else if i.Eject? {
      EjectPosts(s, i.ring, i.id);
    } else if i.DistributeRewards? {
      RewardsPost(s, i);
    } else if i.GenesisAllocation? || i.MintInflation? {
      MintIntentPosts(s, i);
    } else if i.DistributeSlashedFunds? {
      DistributionPosts(s, i);
    } else if Paying(i) {
      PayingPosts(s, i);
    } else if i.SlashSequencer? {
      SlashIntentPosts(s, i);
    } else if i.EjectSequencer? {
      EjectSequencerPosts(s, i);
    } else {
      OthersPostNothing(s, i);
    }
  }

  lemma OthersPostNothing(s: State, i: Intent)
    requires !Staking(i) && !Minting(i) && !Paying(i) && !Penalizing(i)
    ensures IntentPosts(s, i)
  {
    ApplyParts(s, i);
  }

  // ----- Whole runs -----

  ghost function Book(s: State, ops: seq<Op>): seq<Posting>
    decreases |ops|
  {
    if ops == [] then []
    else
      var init, op := ops[..|ops| - 1], ops[|ops| - 1];
      Book(s, init) + if op.Attempt? then Postings(Run(s, init), op.intent) else []
  }

  /** Over every run every balance, of a user or of the protocol, is its opening
      balance plus its income less its outgo. */
  lemma {:induction false} EveryBalanceIsBooked(s: State, ops: seq<Op>)
    ensures Posts(s.balances, Book(s, ops), Run(s, ops).balances)
    decreases |ops|
  {
    if ops != [] {
      var init, op := ops[..|ops| - 1], ops[|ops| - 1];
      var mid := Run(s, init);
      EveryBalanceIsBooked(s, init);
      if op.Attempt? {
        EveryIntentPosts(mid, op.intent);
        PostsInTurn(s.balances, Book(s, init), mid.balances, Postings(mid, op.intent), Run(s, ops).balances);
      } else {
        assert Book(s, ops) == Book(s, init);
      }
    }
  }

  // ----- Who can be charged -----

  /** The account that an intent names as its payer, and what it may cost. */
  predicate Charges(i: Intent, who: Address, x: nat)
  {
    || (i.Transfer? && i.from == who && i.amount == x)
    || (i.Delegate? && i.from == who && i.amount == x)
    || (i.DepositStake? && i.from == who && i.amount == x)
    || (i.L1Lock? && i.user == who && i.amount == x)
    || (i.DepositSequencerBond? && i.from == who && i.amount == x)
    || (i.DepositSafetyBond? && i.from == who && i.amount == x)
  }

  lemma {:induction false} EachFromElsewhere(from: Side, cs: Credits, a: Address)
    requires from != Holder(a)
    ensures Outgo(PayEach(from, cs), a) == 0
  {
    EachPosting(from, cs, a);
  }

  /** A payment that costs a user something is one the intent charges them for. */
  lemma PaymentCharges(s: State, i: Intent, u: Address)
    requires Paying(i) && u.User? && Outgo(PaymentPostings(s.balances, Payer(i), Payee(i), i.amount), u) > 0
    ensures Charges(i, u, Outgo(PaymentPostings(s.balances, Payer(i), Payee(i), i.amount), u))
  {
    var x := i.amount;
    OnePosting(Pay(Payer(i), Payee(i), x), u);
    OnePosting(Lose(Payer(i), x), u);
  }

  lemma SlashSparesUsers(b: Ledger, from: Address, x: nat, u: Address)
    requires u.User? && from.Reserved?
    ensures Outgo(SlashPostings(b, from, x), u) == 0
  {
    ShareFits(x);
    var share := InsuranceShare(x);
    OnePosting(Lose(from, x), u);
    OnePosting(Pay(from, INSURANCE, share), u);
    OnePosting(Lose(from, x - share), u);
    OnePosting(Pay(from, TREASURY, x - share), u);
    TwoPostings(Pay(from, INSURANCE, share), Lose(from, x - share), u);
    TwoPostings(Pay(from, INSURANCE, share), Pay(from, TREASURY, x - share), u);
  }

  lemma BountySparesUsers(b: Ledger, who: Address, bounty: nat, u: Address)
    requires u.User?
    ensures Outgo(BountyPostings(b, who, bounty), u) == 0
  {
    OnePosting(Lose(TREASURY, bounty), u);
    OnePosting(Pay(TREASURY, who, bounty), u);
  }

  lemma StrikesSpareUsers(b: Ledger, who: Address, u: Address)
    requires u.User?
    ensures Outgo(StrikePostings(b, who), u) == 0
  {
    var slash := LivenessSlash(Bal(b, BOND));
    var bounty := BountyPostings(b, who, Lesser(slash / 10, 1_000_000));
    SlashSparesUsers(b, BOND, slash, u);
    BountySparesUsers(b, who, Lesser(slash / 10, 1_000_000), u);
    PostingsAdd(SlashPostings(b, BOND, slash), bounty, u);
    PostingsAdd(SlashPostings(b, BOND, slash), [], u);
  }

  lemma PenaltiesSpareUsers(s: State, i: Intent, u: Address)
    requires Penalizing(i) && u.User?
    ensures Outgo(Postings(s, i), u) == 0
  {
    var b := s.balances;
    if i.SlashSequencer? {
      SlashSparesUsers(b, SAFETY, Bal(b, SAFETY), u);
      if PendingIn(s, i.offense) { StrikesSpareUsers(b, s.reg.obligations[i.offense].submitter, u); }
    } else {
      BountySparesUsers(b, i.ejector, Lesser(Lesser(LivenessSlash(Bal(b, BOND)) / 10, 1_000_000), Bal(b, TREASURY)), u);
    }
  }

  lemma MintsSpareUsers(s: State, i: Intent, u: Address)
    requires Minting(i) && u.User?
    ensures Outgo(Postings(s, i), u) == 0
  {
    match i
    case GenesisAllocation(cs) => EachFromElsewhere(Nowhere, cs, u);
    case MintInflation(_, x, y, z) =>
      var p := Posting(Nowhere, Holder(Reserved(AuthorityRewardsPool)), x);
      var q := Posting(Nowhere, Holder(Reserved(ValidatorRewardsPool)), y);
      var r := Posting(Nowhere, Holder(TREASURY), z);
      assert [p, q, r] == [p, q] + [r];
      PostingsAdd([p, q], [r], u);
      TwoPostings(p, q, u);
    case DistributeSlashedFunds(cs, insurance, treasury) =>
      var all := SlashedCredits(cs, insurance, treasury);
      EachFromElsewhere(Nowhere, all[..FittingPrefix(s.balances, all)], u);
  }

  lemma StakesCharge(s: State, i: Intent, u: Address)
    requires Staking(i) && u.User? && Outgo(Postings(s, i), u) > 0
    ensures Charges(i, u, Outgo(Postings(s, i), u))
  {
    match i
    case Transfer(from, to, x) => OnePosting(Pay(from, to, x), u);
    case Delegate(from, _, x) => OnePosting(Pay(from, Reserved(ValidatorStakePool), x), u);
    case DepositStake(ring, from, _, x) => OnePosting(Pay(from, StakePool(ring), x), u);
    case WithdrawStake(ring, to, _, x) => OnePosting(Pay(StakePool(ring), to, x), u);
    case Eject(ring, id) =>
      SlashSparesUsers(s.balances, StakePool(ring),
                       Lesser(Slot(s.reg, ring, id).deposited, Bal(s.balances, StakePool(ring))), u);
    case DistributeRewards(_, ring, cs) => EachFromElsewhere(Holder(RewardsPool(ring)), cs, u);
  }

  /** A user's money leaves only by an intent that names that user as its payer, and
      then by exactly the amount it names. */
  lemma OnlyPayersAreCharged(s: State, i: Intent, u: Address)
    requires u.User? && Outgo(Postings(s, i), u) > 0
    ensures Charges(i, u, Outgo(Postings(s, i), u))
  {
    if Staking(i) {
      StakesCharge(s, i, u);
    } else if Minting(i) {
      MintsSpareUsers(s, i, u);
    } else if Penalizing(i) {
      PenaltiesSpareUsers(s, i, u);
    } else if Paying(i) {
      PaymentCharges(s, i, u);
    }
  }

  /** So a run in which nobody names `u` as payer never lowers the balance of `u`. */
  lemma {:induction false} UnnamedNeverPays(s: State, ops: seq<Op>, u: Address)
    requires u.User? && forall k, x: nat | 0 <= k < |ops| && ops[k].Attempt? :: !Charges(ops[k].intent, u, x)
    ensures Bal(s.balances, u) <= Bal(Run(s, ops).balances, u)
    decreases |ops|
  {
    if ops != [] {
      var init, op := ops[..|ops| - 1], ops[|ops| - 1];
      assert forall k | 0 <= k < |init| :: init[k] == ops[k];
      UnnamedNeverPays(s, init, u);
      if op.Attempt? {
        var mid := Run(s, init);
        EveryIntentPosts(mid, op.intent);
        if Outgo(Postings(mid, op.intent), u) > 0 {
          OnlyPayersAreCharged(mid, op.intent, u);
        }
      }
    }
  }
}
