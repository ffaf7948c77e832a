/**
 ctrlers/stake/ctrler.go: what the staking controller does to accounts, delegatees, frozen
 stakes and rewards, and where every coin is at any time. Ledgers are the machines of
 the Overlays module; accounts are never deleted, so for them a map is enough.
 */
module Staking {
  import opened Prelude
  import opened Overlays
  import opened Amounts
  import opened Delegatees
  import opened BlockMarkers
  import opened Rewards
  import opened Accounts
  import opened GovernanceParams

  datatype World = World(
    accounts: Book,
    delegatees: Overlay<Address, Delegatee>,
    frozen: Overlay<Hash, Stake>,
    rewards: Overlay<Address, Reward>)

  // ----- Slashing -----

  /** doPunish: the power taken by a slash is gone, and so are the stakes too small to cut. */
  function Punish(w: World, addr: Address, ratio: int): World
  {
    match w.delegatees.Get(addr)
    case None => w
    case Some(d) => w.(delegatees := w.delegatees.Set(addr, SlashAll(d, ratio)))
  }

  /** The power a punishment destroys: what it reports, and the stakes it drops without reporting. */
  function Destroyed(w: World, addr: Address, ratio: int): int
  {
    match w.delegatees.Get(addr)
    case None => 0
    case Some(d) => SumCuts(d.stakes, ratio) + SumPower(DoomedOf(d.stakes, ratio))
  }

  // ----- Freezing -----

  /** Stakes go to the frozen ledger under the hash of the transaction that made them. */
  function Freeze(f: Overlay<Hash, Stake>, stakes: seq<Stake>, refundHeight: int): Overlay<Hash, Stake>
  {
    if stakes == [] then f
    else
      var s := stakes[|stakes| - 1];
      Freeze(f, stakes[..|stakes| - 1], refundHeight).Set(s.txHash, s.(refundHeight := refundHeight))
  }

  /** The power that freezing overwrites: that of stakes frozen under the same hashes before. */
  function Clashed(f: Overlay<Hash, Stake>, stakes: seq<Stake>, refundHeight: int): int
  {
    if stakes == [] then 0
    else
      var front := stakes[..|stakes| - 1];
      Clashed(f, front, refundHeight) + At(Power, Freeze(f, front, refundHeight).working, stakes[|stakes| - 1].txHash)
  }

  function ZeroBytes(n: nat): (zs: Bytes)
    ensures |zs| == n
  {
    if n == 0 then [] else ZeroBytes(n - 1) + [0]
  }

  /** All genesis stakes have the same hash. */
  const GENESIS_HASH: Hash := ZeroBytes(32)

  /** The powers of the genesis stakes among some stakes. */
  function GenesisPowers(stakes: seq<Stake>): seq<int>
  {
    if stakes == [] then []
    else
      var s := stakes[|stakes| - 1];
      GenesisPowers(stakes[..|stakes| - 1]) + if s.txHash == GENESIS_HASH then [s.power] else []
  }

  // ----- Votes of the last block -----

  datatype VoteInfo = VoteInfo(addr: Address, power: int, signed: bool)

  function RewardOf(rewards: Overlay<Address, Reward>, addr: Address): Reward
  {
    var found := rewards.Get(addr);
    if found.Some? then found.value else NewReward(addr)
  }

  ghost predicate HeightsUpTo(rewards: map<Address, Reward>, h: int)
  {
    forall a | a in rewards :: rewards[a].height <= h
  }

  /** Rewards are never deleted, and none is from a later block. */
  ghost predicate RewardsUpTo(rewards: Overlay<Address, Reward>, h: int)
  {
    h >= 0 && rewards.dead == {} && HeightsUpTo(rewards.working, h) && HeightsUpTo(rewards.committed, h)
  }

  /** doRewardTo: every stake of a delegatee earns its owner the same amount per power. */
  function RewardStakes(rewards: Overlay<Address, Reward>, stakes: seq<Stake>, h: int, perPower: nat): (r: Overlay<Address, Reward>)
    requires RewardsUpTo(rewards, h) && forall s | s in stakes :: s.power >= 0
    ensures RewardsUpTo(r, h)
  {
    if stakes == [] then rewards
    else
      assert forall x | x in stakes[..|stakes| - 1] :: x in stakes;
      var before := RewardStakes(rewards, stakes[..|stakes| - 1], h, perPower);
      var s := stakes[|stakes| - 1];
      before.Set(s.from, Issued(RewardOf(before, s.from), Mul256(s.power, perPower), h))
  }

  /** The heights a delegatee missed, after marking the last block and counting in the window. */
  function Missed(d: Delegatee, h: int, p: GovParams): (seq<int>, nat)
  {
    var marked := MarkHeights(d.notSignedHeights, h - 1);
    var s := if h - 1 - p.signedBlocksWindow < 0 then 0 else h - 1 - p.signedBlocksWindow;
    (StepHeights(marked, Count(s, h - 1), true), |Window(marked, s, h - 1)|)
  }

  /** Freezing all stakes of a delegatee and deleting it. */
  function Dissolve(w: World, a: Address, refundHeight: int): World
    requires a in w.delegatees.working
  {
    w.(frozen := Freeze(w.frozen, w.delegatees.working[a].stakes, refundHeight), delegatees := w.delegatees.Del(a))
  }

  function SetHeights(w: World, a: Address, heights: seq<int>): World
    requires a in w.delegatees.working
  {
    w.(delegatees := w.delegatees.Set(a, w.delegatees.working[a].(notSignedHeights := heights)))
  }

  function MarkOrStop(w: World, addr: Address, heights: seq<int>, stop: bool, refundHeight: int): World
    requires addr in w.delegatees.working
  {
    if stop then Dissolve(SetHeights(w, addr, heights), addr, refundHeight) else SetHeights(w, addr, heights)
  }

  /** A validator that signed too few blocks of the window is stopped. */
  predicate IsStopped(d: Delegatee, h: int, p: GovParams)
  {
    p.signedBlocksWindow - Missed(d, h, p).1 < p.minSignedBlocks
  }

  /** The vote of a validator that missed a block; when it is stopped, all its stakes are frozen. */
  function MissBlock(w: World, addr: Address, h: int, p: GovParams): World
  {
    match w.delegatees.Get(addr)
    case None => w
    case Some(d) => MarkOrStop(w, addr, Missed(d, h, p).0, IsStopped(d, h, p), h + p.lazyRewardBlocks)
  }

  /** The stakes that a vote freezes. */
  function FrozenByVote(w: World, v: VoteInfo, h: int, p: GovParams): seq<Stake>
  {
    var found := w.delegatees.Get(v.addr);
    if !v.signed && found.Some? && IsStopped(found.value, h, p) then found.value.stakes else []
  }

  /** The power that a vote loses by freezing. */
  function ClashedByVote(w: World, v: VoteInfo, h: int, p: GovParams): int
  {
    Clashed(w.frozen, FrozenByVote(w, v, h, p), h + p.lazyRewardBlocks)
  }

  /** The delegatee that a signed vote rewards: the one of the version the vote's power is from. */
  function Rewarded(immutable: map<Address, Delegatee>, v: VoteInfo): seq<Stake>
  {
    if v.signed && v.addr in immutable && immutable[v.addr].totalPower == v.power then immutable[v.addr].stakes else []
  }

  ghost predicate AllSound(ds: map<Address, Delegatee>)
  {
    forall a | a in ds :: Sound(ds[a]) && ds[a].addr == a
  }

  function ProcessVote(w: World, v: VoteInfo, immutable: map<Address, Delegatee>, h: int, p: GovParams): (r: World)
    requires RewardsUpTo(w.rewards, h) && AllSound(immutable)
    ensures RewardsUpTo(r.rewards, h)
  {
    if v.signed then w.(rewards := RewardStakes(w.rewards, Rewarded(immutable, v), h, p.rewardPerPower))
    else MissBlock(w, v.addr, h, p)
  }

  // ----- Transactions -----

  /** The stake goes to the delegatee, which is made if its address reads as absent. */
  function Staked(w: World, from: Address, to: Address, amount: nat, power: nat, txHash: Hash, pubKey: Bytes, h: int): World
    requires from in w.accounts && amount <= w.accounts[from].balance
  {
    var found := w.delegatees.Get(to);
    var d := if found.None? then NewDelegatee(from, pubKey) else found.value;
    var s := Stake(from, to, txHash, h + 1, 0, power);
    w.(accounts := Debit(w.accounts, from, amount), delegatees := w.delegatees.Set(to, WithStake(d, s)))
  }

  /** exeStaking, with its result; only an own stake makes a delegatee. */
  function ExeStaking(w: World, from: Address, to: Address, amount: nat, txHash: Hash, pubKey: Bytes, h: int): (World, bool)
    requires from in w.accounts
  {
    if w.delegatees.Get(to).None? && from != to then (w, false)
    else if amount >= SIGN_BIT || amount > w.accounts[from].balance || AmountToPower(amount).None? then (w, false)
    else (Staked(w, from, to, amount, AmountToPower(amount).value, txHash, pubKey, h), true)
  }

  function StakedPower(d: Delegatee): int
  {
    SumPower(d.stakes)
  }

  /** The power that a staking overwrites: that of a delegatee deleted and made again in this block, which reads as absent. */
  function Overwritten(w: World, to: Address): int
  {
    if to in w.delegatees.dead && to in w.delegatees.working then StakedPower(w.delegatees.working[to]) else 0
  }

  /** The delegatee holds a stake with this hash, and the sender owns it. */
  predicate CanUnstake(w: World, from: Address, to: Address, txHash: Hash)
  {
    var found := w.delegatees.Get(to);
    && found.Some? && |txHash| == 32
    && (var i := FindStake(found.value.stakes, txHash);
        i >= 0 && found.value.stakes[i].from == from)
  }

  /** The stake is frozen; without self power left, so are all others, and a delegatee without power is deleted. */
  function Unstaked(w: World, to: Address, txHash: Hash, refundHeight: int): World
    requires to in w.delegatees.working && FindStake(w.delegatees.working[to].stakes, txHash) >= 0
  {
    var d := w.delegatees.working[to];
    var s0 := d.stakes[FindStake(d.stakes, txHash)];
    var d1 := WithoutStake(d, txHash);
    var f1 := w.frozen.Set(s0.txHash, s0.(refundHeight := refundHeight));
    var f2 := if d1.selfPower == 0 then Freeze(f1, d1.stakes, refundHeight) else f1;
    var d2 := if d1.selfPower == 0 then WithoutStakes(d1) else d1;
    w.(frozen := f2, delegatees := if d2.totalPower == 0 then w.delegatees.Del(to) else w.delegatees.Set(to, d2))
  }

  /** The stakes that unstaking one of them freezes. */
  function UnstakedWith(d: Delegatee, txHash: Hash): seq<Stake>
    requires FindStake(d.stakes, txHash) >= 0
  {
    var left := WithoutStake(d, txHash);
    [d.stakes[FindStake(d.stakes, txHash)]] + if left.selfPower == 0 then left.stakes else []
  }

  /** exeUnstaking, with its result. */
  function ExeUnstaking(w: World, from: Address, to: Address, txHash: Hash, refundHeight: int): (World, bool)
  {
    if CanUnstake(w, from, to, txHash) then (Unstaked(w, to, txHash, refundHeight), true) else (w, false)
  }

  /**
   exeWithdraw, which leaves it to validation to see that the reward suffices. An account refuses an amount from 2^255
   on; the reward is then taken back to what the last commit stored.
   */
  function ExeWithdraw(w: World, from: Address, amount: Amount256, h: int): (World, bool)
    requires from in w.accounts && RewardsUpTo(w.rewards, h)
    ensures RewardsUpTo(ExeWithdraw(w, from, amount, h).0.rewards, h)
  {
    var found := w.rewards.Get(from);
    if found.None? then (w, false)
    else
      var rewards := w.rewards.Set(from, Withdrawn(found.value, amount, h));
      if amount >= SIGN_BIT then (w.(rewards := rewards.CancelSet(from)), false)
      else (w.(rewards := rewards, accounts := Credit(w.accounts, from, amount)), true)
  }

  // ----- End of block -----

  /** The refund of one frozen stake. */
  function Refund(w: World, s: Stake): World
    requires s.from in w.accounts && s.power >= 0
  {
    w.(accounts := Credit(w.accounts, s.from, PowerToAmount(s.power)), frozen := w.frozen.Del(s.txHash))
  }

  /** unfreezingStakes over the committed frozen stakes, in the order of the keys given; it stops at an owner without account. */
  function Unfreeze(w: World, ks: seq<Hash>, h: int): (World, bool)
    requires forall k | k in ks :: k in w.frozen.committed && w.frozen.committed[k].power >= 0
  {
    if ks == [] then (w, true)
    else
      var k := ks[|ks| - 1];
      var (w1, ok) := Unfreeze(w, ks[..|ks| - 1], h);
      var s := w.frozen.committed[k];
      if !ok || s.refundHeight > h then (w1, ok)
      else if s.from !in w1.accounts then (w1, false)
      else (Refund(w1, s), true)
  }

  /** By how much the refund of stakes replaced in the frozen ledger since the last commit misses what it removes. */
  function Misrefunded(f: Overlay<Hash, Stake>, ks: seq<Hash>, h: int): int
    requires forall k | k in ks :: k in f.committed
  {
    if ks == [] then 0
    else
      var k := ks[|ks| - 1];
      Misrefunded(f, ks[..|ks| - 1], h)
      + if f.committed[k].refundHeight <= h then At(Power, f.working, k) - f.committed[k].power else 0
  }

  function CommitWorld(w: World): World
  {
    w.(delegatees := w.delegatees.Commit(), frozen := w.frozen.Commit(), rewards := w.rewards.Commit())
  }
}
