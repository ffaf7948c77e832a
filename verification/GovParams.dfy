/** ctrlers/types/gov_params.go: the governance parameters. A missing amount is 0. */
module GovernanceParams {

  datatype GovParams = GovParams(
    version: int,
    maxValidatorCnt: int,
    minValidatorStake: nat,
    minDelegatorStake: nat,
    rewardPerPower: nat,
    lazyRewardBlocks: int,
    lazyApplyingBlocks: int,
    gasPrice: nat,
    minTrxGas: nat,
    maxTrxGas: nat,
    maxBlockGas: nat,
    minVotingPeriodBlocks: int,
    maxVotingPeriodBlocks: int,
    minSelfStakeRatio: int,
    maxUpdatableStakeRatio: int,
    maxIndividualStakeRatio: int,
    slashRatio: int,
    signedBlocksWindow: int,
    minSignedBlocks: int)

  function Or(a: int, b: int): int
  {
    if a == 0 then b else a
  }

  function OrAmount(a: nat, b: nat): nat
  {
    if a == 0 then b else a
  }

  /** MergeGovParams: what a proposal leaves at 0 is taken from the parameters in force. */
  function Merge(base: GovParams, p: GovParams): GovParams
  {
    GovParams(
      Or(p.version, base.version),
      Or(p.maxValidatorCnt, base.maxValidatorCnt),
      OrAmount(p.minValidatorStake, base.minValidatorStake),
      OrAmount(p.minDelegatorStake, base.minDelegatorStake),
      OrAmount(p.rewardPerPower, base.rewardPerPower),
      Or(p.lazyRewardBlocks, base.lazyRewardBlocks),
      Or(p.lazyApplyingBlocks, base.lazyApplyingBlocks),
      OrAmount(p.gasPrice, base.gasPrice),
      OrAmount(p.minTrxGas, base.minTrxGas),
      OrAmount(p.maxTrxGas, base.maxTrxGas),
      OrAmount(p.maxBlockGas, base.maxBlockGas),
      Or(p.minVotingPeriodBlocks, base.minVotingPeriodBlocks),
      Or(p.maxVotingPeriodBlocks, base.maxVotingPeriodBlocks),
      Or(p.minSelfStakeRatio, base.minSelfStakeRatio),
      Or(p.maxUpdatableStakeRatio, base.maxUpdatableStakeRatio),
      Or(p.maxIndividualStakeRatio, base.maxIndividualStakeRatio),
      Or(p.slashRatio, base.slashRatio),
      Or(p.signedBlocksWindow, base.signedBlocksWindow),
      Or(p.minSignedBlocks, base.minSignedBlocks))
  }

  const NOTHING_PROPOSED := GovParams(0, 0, 0, 0, 0, 0, 0, 0, 0, 0, 0, 0, 0, 0, 0, 0, 0, 0, 0)

  /** No field is left at 0. */
  predicate Complete(p: GovParams)
  {
    && p.version != 0 && p.maxValidatorCnt != 0 && p.minValidatorStake != 0 && p.minDelegatorStake != 0
    && p.rewardPerPower != 0 && p.lazyRewardBlocks != 0 && p.lazyApplyingBlocks != 0 && p.gasPrice != 0
    && p.minTrxGas != 0 && p.maxTrxGas != 0 && p.maxBlockGas != 0 && p.minVotingPeriodBlocks != 0
    && p.maxVotingPeriodBlocks != 0 && p.minSelfStakeRatio != 0 && p.maxUpdatableStakeRatio != 0
    && p.maxIndividualStakeRatio != 0 && p.slashRatio != 0 && p.signedBlocksWindow != 0 && p.minSignedBlocks != 0
  }

  /**
   Proposing nothing keeps the parameters in force, proposing everything replaces them, merging twice is merging once,
   and nothing that is set becomes unset.
   */
  lemma MergeLaws(base: GovParams, p: GovParams)
    ensures Merge(base, NOTHING_PROPOSED) == base
    ensures Complete(p) ==> Merge(base, p) == p
    ensures Merge(base, Merge(base, p)) == Merge(base, p)
    ensures Complete(base) ==> Complete(Merge(base, p))
  {
  }

  /** A value proposed for one parameter goes to that parameter, whatever else is proposed. */
  lemma ProposedValueIsTaken(base: GovParams, p: GovParams, v: int, n: nat)
    requires v != 0 && n != 0
    ensures Merge(base, p.(version := v)) == Merge(base, p).(version := v)
    ensures Merge(base, p.(maxValidatorCnt := v)) == Merge(base, p).(maxValidatorCnt := v)
    ensures Merge(base, p.(minValidatorStake := n)) == Merge(base, p).(minValidatorStake := n)
    ensures Merge(base, p.(minDelegatorStake := n)) == Merge(base, p).(minDelegatorStake := n)
    ensures Merge(base, p.(rewardPerPower := n)) == Merge(base, p).(rewardPerPower := n)
    ensures Merge(base, p.(lazyRewardBlocks := v)) == Merge(base, p).(lazyRewardBlocks := v)
    ensures Merge(base, p.(lazyApplyingBlocks := v)) == Merge(base, p).(lazyApplyingBlocks := v)
    ensures Merge(base, p.(gasPrice := n)) == Merge(base, p).(gasPrice := n)
    ensures Merge(base, p.(minTrxGas := n)) == Merge(base, p).(minTrxGas := n)
    ensures Merge(base, p.(maxTrxGas := n)) == Merge(base, p).(maxTrxGas := n)
    ensures Merge(base, p.(maxBlockGas := n)) == Merge(base, p).(maxBlockGas := n)
    ensures Merge(base, p.(minVotingPeriodBlocks := v)) == Merge(base, p).(minVotingPeriodBlocks := v)
    ensures Merge(base, p.(maxVotingPeriodBlocks := v)) == Merge(base, p).(maxVotingPeriodBlocks := v)
    ensures Merge(base, p.(minSelfStakeRatio := v)) == Merge(base, p).(minSelfStakeRatio := v)
    ensures Merge(base, p.(maxUpdatableStakeRatio := v)) == Merge(base, p).(maxUpdatableStakeRatio := v)
    ensures Merge(base, p.(maxIndividualStakeRatio := v)) == Merge(base, p).(maxIndividualStakeRatio := v)
    ensures Merge(base, p.(slashRatio := v)) == Merge(base, p).(slashRatio := v)
    ensures Merge(base, p.(signedBlocksWindow := v)) == Merge(base, p).(signedBlocksWindow := v)
    ensures Merge(base, p.(minSignedBlocks := v)) == Merge(base, p).(minSignedBlocks := v)
  {
  }

  /** A proposal of one value changes that parameter and no other. */
  lemma SingleProposalChangesOne(base: GovParams, v: int, n: nat)
    requires v != 0 && n != 0
    ensures Merge(base, NOTHING_PROPOSED.(version := v)) == base.(version := v)
    ensures Merge(base, NOTHING_PROPOSED.(maxValidatorCnt := v)) == base.(maxValidatorCnt := v)
    ensures Merge(base, NOTHING_PROPOSED.(minValidatorStake := n)) == base.(minValidatorStake := n)
    ensures Merge(base, NOTHING_PROPOSED.(minDelegatorStake := n)) == base.(minDelegatorStake := n)
    ensures Merge(base, NOTHING_PROPOSED.(rewardPerPower := n)) == base.(rewardPerPower := n)
    ensures Merge(base, NOTHING_PROPOSED.(lazyRewardBlocks := v)) == base.(lazyRewardBlocks := v)
    ensures Merge(base, NOTHING_PROPOSED.(lazyApplyingBlocks := v)) == base.(lazyApplyingBlocks := v)
    ensures Merge(base, NOTHING_PROPOSED.(gasPrice := n)) == base.(gasPrice := n)
    ensures Merge(base, NOTHING_PROPOSED.(minTrxGas := n)) == base.(minTrxGas := n)
    ensures Merge(base, NOTHING_PROPOSED.(maxTrxGas := n)) == base.(maxTrxGas := n)
    ensures Merge(base, NOTHING_PROPOSED.(maxBlockGas := n)) == base.(maxBlockGas := n)
    ensures Merge(base, NOTHING_PROPOSED.(minVotingPeriodBlocks := v)) == base.(minVotingPeriodBlocks := v)
    ensures Merge(base, NOTHING_PROPOSED.(maxVotingPeriodBlocks := v)) == base.(maxVotingPeriodBlocks := v)
    ensures Merge(base, NOTHING_PROPOSED.(minSelfStakeRatio := v)) == base.(minSelfStakeRatio := v)
    ensures Merge(base, NOTHING_PROPOSED.(maxUpdatableStakeRatio := v)) == base.(maxUpdatableStakeRatio := v)
    ensures Merge(base, NOTHING_PROPOSED.(maxIndividualStakeRatio := v)) == base.(maxIndividualStakeRatio := v)
    ensures Merge(base, NOTHING_PROPOSED.(slashRatio := v)) == base.(slashRatio := v)
    ensures Merge(base, NOTHING_PROPOSED.(signedBlocksWindow := v)) == base.(signedBlocksWindow := v)
    ensures Merge(base, NOTHING_PROPOSED.(minSignedBlocks := v)) == base.(minSignedBlocks := v)
  {
    MergeLaws(base, NOTHING_PROPOSED);
    ProposedValueIsTaken(base, NOTHING_PROPOSED, v, n);
  }

  /** Two proposals applied one after the other are applied like one in which the later wins. */
  lemma MergeIsAssociative(base: GovParams, p: GovParams, q: GovParams)
    ensures Merge(Merge(base, p), q) == Merge(base, Merge(p, q))
  {
  }
}
