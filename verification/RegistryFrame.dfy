/** Which registries an intent may change, applied or failing. */
module RegistryFrame {
  import opened Registries
  import opened Intents

  /** Stake, delegation and slot intents. */
  ghost predicate Pledging(i: Intent)
  {
    i.Admit? || i.Exit? || i.Eject? || i.DepositStake? || i.WithdrawStake? || i.Delegate?
  }

  /** Intents that change obligations. */
  ghost predicate Obliging(i: Intent)
  {
    i.L2ForceInclude? || i.MarkForceIncludeHonored? || Strikes(i)
  }

  /** `q` differs from `r` only where an intent like `i` may write. */
  ghost predicate Framed(r: Registries, q: Registries, i: Intent)
  {
    && (!Pledging(i) ==> r.authorities == q.authorities && r.validators == q.validators)
    && (!i.Delegate? ==> r.delegations == q.delegations)
    && (!i.L2BurnProven? ==> q.nullifiers == r.nullifiers)
    && (!Obliging(i) ==> q.obligations == r.obligations)
    && (!i.EjectSequencer? ==> q.ejections == r.ejections)
    && (!i.SlashSequencer? ==> q.offenses == r.offenses)
    && (!i.SetL2VerifyingKey? ==> q.vks == r.vks)
    && (!i.CommitL2StateRoot? ==> q.batches == r.batches)
    && (!i.AddBridgeAsset? && !i.PauseBridgeAsset? && !i.RemoveBridgeAsset? ==> q.assets == r.assets)
    && (!i.MintInflation? ==> q.lastMinted == r.lastMinted)
    && (!i.DistributeRewards? ==>
          q.lastAuthorityRewards == r.lastAuthorityRewards && q.lastValidatorRewards == r.lastValidatorRewards)
  }

  lemma WrittenFramed(r: Registries, height: nat, i: Intent, ok: bool)
    ensures Framed(r, Written(r, height, i, ok), i)
  {
  }

  /** An intent either stops at its gates and changes nothing, or makes its move
      and leaves the registries of its success or failure. */
  lemma ApplyParts(s: State, i: Intent)
    ensures var t := Apply(s, i);
            var m := MoveOf(s.balances, s.reg, i);
            && t.state.height == s.height
            && (Gate(s, i) != [] ==> t.outcome.Err? && t.state == s)
            && (Gate(s, i) == [] ==>
                  && t.outcome == m.outcome && t.state.balances == m.balances
                  && t.state.reg == Written(s.reg, s.height, i, m.outcome.Ok?))
  {
  }

  /** The frame of every intent, registry by registry. */
  lemma RegistriesKept(s: State, i: Intent)
    ensures Framed(s.reg, Apply(s, i).state.reg, i)
  {
    ApplyParts(s, i);
    WrittenFramed(s.reg, s.height, i, MoveOf(s.balances, s.reg, i).outcome.Ok?);
  }
}
