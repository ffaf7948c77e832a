/**
 Where every coin of the staking controller is: in a balance, in an active stake, in a
 frozen stake or in a reward. Each operation is shown to keep the sum, or to change
 it by exactly what it issues, destroys or overwrites.
 */
module Conservation {
  import opened Prelude
  import opened Overlays
  import opened Amounts
  import opened Delegatees
  import opened Rewards
  import opened Accounts
  import opened GovernanceParams
  import opened Staking

  function Cumulated(r: Reward): int
  {
    r.cumulated
  }

  ghost function ActivePower(w: World): int
  {
    SumMap(StakedPower, w.delegatees.working)
  }

  ghost function FrozenPower(w: World): int
  {
    SumMap(Power, w.frozen.working)
  }

  ghost function Supply(w: World): int
  {
    TotalBalance(w.accounts) + AMOUNT_PER_POWER * (ActivePower(w) + FrozenPower(w)) + SumMap(Cumulated, w.rewards.working)
  }

  // ----- What every operation keeps -----

  /** A delegatee under its own address, sound, all of whose stakes have owners with accounts and used hashes. */
  ghost predicate Holds(d: Delegatee, addr: Address, owners: set<Address>, used: set<Hash>)
  {
    Sound(d) && d.addr == addr && forall s | s in d.stakes :: s.from in owners && s.txHash in used
  }

  ghost predicate FrozenOk(f: map<Hash, Stake>, owners: set<Address>)
  {
    forall k | k in f :: f[k].txHash == k && f[k].power >= 0 && f[k].from in owners
  }

  /** Until the end of the block, nothing frozen is deleted, and the refunds of what is committed cannot overflow. */
  ghost predicate FrozenReady(f: Overlay<Hash, Stake>, owners: set<Address>)
  {
    && f.dead == {} && f.committed.Keys <= f.working.Keys
    && FrozenOk(f.working, owners) && FrozenOk(f.committed, owners)
    && SumMap(Power, f.committed) < I63
  }

  ghost predicate AllHold(ds: map<Address, Delegatee>, owners: set<Address>, used: set<Hash>)
  {
    forall a | a in ds :: Holds(ds[a], a, owners, used)
  }

  ghost predicate Good(w: World, used: set<Hash>)
  {
    AllHold(w.delegatees.working, w.accounts.Keys, used) && FrozenReady(w.frozen, w.accounts.Keys)
  }

  // ----- Lemmas on one ledger -----

  lemma SetDelegatee(w: World, a: Address, d: Delegatee)
    ensures ActivePower(w.(delegatees := w.delegatees.Set(a, d)))
         == ActivePower(w) + StakedPower(d) - At(StakedPower, w.delegatees.working, a)
  {
    SumMapUpdate(StakedPower, w.delegatees.working, a, d);
  }

  lemma DelDelegatee(w: World, a: Address)
    requires w.delegatees.Get(a).Some?
    ensures ActivePower(w.(delegatees := w.delegatees.Del(a))) == ActivePower(w) - StakedPower(w.delegatees.working[a])
  {
    SumMapRemove(StakedPower, w.delegatees.working, a);
  }

  lemma ReplaceKeepsGood(w: World, a: Address, d: Delegatee, used: set<Hash>, more: set<Hash>)
    requires Good(w, used) && Holds(d, a, w.accounts.Keys, used + more)
    ensures Good(w.(delegatees := w.delegatees.Set(a, d)), used + more)
  {
    var ds, owners := w.delegatees.working, w.accounts.Keys;
    forall x | x in ds ensures Holds(ds[x], x, owners, used + more) { assert Holds(ds[x], x, owners, used); }
  }

  // ----- Freezing -----

  lemma FreezeOneKeepsReady(f: Overlay<Hash, Stake>, s: Stake, owners: set<Address>)
    requires FrozenReady(f, owners) && s.power >= 0 && s.from in owners
    ensures FrozenReady(f.Set(s.txHash, s), owners)
  {
  }

  lemma {:induction false} FreezeKeepsReady(f: Overlay<Hash, Stake>, stakes: seq<Stake>, refundHeight: int, owners: set<Address>)
    requires FrozenReady(f, owners) && forall s | s in stakes :: s.power >= 0 && s.from in owners
    ensures FrozenReady(Freeze(f, stakes, refundHeight), owners)
    ensures Freeze(f, stakes, refundHeight).committed == f.committed
  {
    if stakes != [] {
      var front, s := stakes[..|stakes| - 1], stakes[|stakes| - 1];
      assert s in stakes && forall x | x in front :: x in stakes;
      FreezeKeepsReady(f, front, refundHeight, owners);
      FreezeOneKeepsReady(Freeze(f, front, refundHeight), s.(refundHeight := refundHeight), owners);
    }
  }

  /** Freezing stakes adds their power and loses what it overwrites. */
  lemma {:induction false} FreezeLaw(f: Overlay<Hash, Stake>, stakes: seq<Stake>, refundHeight: int)
    ensures SumMap(Power, Freeze(f, stakes, refundHeight).working)
         == SumMap(Power, f.working) + SumPower(stakes) - Clashed(f, stakes, refundHeight)
  {
    if stakes != [] {
      var front, s := stakes[..|stakes| - 1], stakes[|stakes| - 1];
      assert stakes == front + [s];
      FreezeLaw(f, front, refundHeight);
      SumSeqAppend(Power, front, s);
      SumMapUpdate(Power, Freeze(f, front, refundHeight).working, s.txHash, s.(refundHeight := refundHeight));
    }
  }

  /** Freezing one stake before others. */
  lemma {:induction false} FreezeCons(f: Overlay<Hash, Stake>, s: Stake, rest: seq<Stake>, refundHeight: int)
    ensures var g := f.Set(s.txHash, s.(refundHeight := refundHeight));
            && Freeze(f, [s] + rest, refundHeight) == Freeze(g, rest, refundHeight)
            && Clashed(f, [s] + rest, refundHeight) == At(Power, f.working, s.txHash) + Clashed(g, rest, refundHeight)
  {
    if rest == [] {
      assert [s] + rest == [s] && [s][..0] == [];
    } else {
      FreezeCons(f, s, rest[..|rest| - 1], refundHeight);
      assert ([s] + rest)[..|rest|] == [s] + rest[..|rest| - 1];
    }
  }

  lemma {:induction false} ClashedIsNonNegative(f: Overlay<Hash, Stake>, stakes: seq<Stake>, refundHeight: int, owners: set<Address>)
    requires FrozenReady(f, owners) && forall s | s in stakes :: s.power >= 0 && s.from in owners
    ensures Clashed(f, stakes, refundHeight) >= 0
  {
    if stakes != [] {
      assert forall x | x in stakes[..|stakes| - 1] :: x in stakes;
      ClashedIsNonNegative(f, stakes[..|stakes| - 1], refundHeight, owners);
      FreezeKeepsReady(f, stakes[..|stakes| - 1], refundHeight, owners);
    }
  }

  /** What a freeze finds under the hash of a stake. */
  function TakenFrom(f: map<Hash, Stake>): Stake -> int
  {
    (s: Stake) => At(Power, f, s.txHash)
  }

  lemma {:induction false} FreezeLeavesOthers(f: Overlay<Hash, Stake>, stakes: seq<Stake>, refundHeight: int, k: Hash)
    requires forall s | s in stakes :: s.txHash != k
    ensures var r := Freeze(f, stakes, refundHeight).working;
            k in r <==> k in f.working
    ensures var r := Freeze(f, stakes, refundHeight).working;
            k in r ==> r[k] == f.working[k]
  {
    if stakes != [] {
      assert forall x | x in stakes[..|stakes| - 1] :: x in stakes;
      assert stakes[|stakes| - 1] in stakes;
      FreezeLeavesOthers(f, stakes[..|stakes| - 1], refundHeight, k);
    }
  }

  /** Stakes with different hashes overwrite exactly what was frozen under these hashes before. */
  lemma {:induction false} ClashedIsTaken(f: Overlay<Hash, Stake>, stakes: seq<Stake>, refundHeight: int)
    requires DistinctHashes(stakes)
    ensures Clashed(f, stakes, refundHeight) == SumSeq(TakenFrom(f.working), stakes)
  {
    if stakes != [] {
      var front, s := stakes[..|stakes| - 1], stakes[|stakes| - 1];
      assert stakes == front + [s];
      ClashedIsTaken(f, front, refundHeight);
      SumSeqAppend(TakenFrom(f.working), front, s);
      FreezeLeavesOthers(f, front, refundHeight, s.txHash);
    }
  }

  lemma {:induction false} SumIsZero<T>(f: T -> int, s: seq<T>)
    requires forall x | x in s :: f(x) >= 0
    ensures SumSeq(f, s) == 0 <==> forall x | x in s :: f(x) == 0
  {
    if s != [] {
      assert forall x | x in s[1..] :: x in s;
      assert forall x | x in s :: x == s[0] || x in s[1..];
      SumIsZero(f, s[1..]);
      SumSeqNonNegative(f, s[1..]);
    }
  }

  /** Freezing conserves power exactly when no hash is taken by a stake that has power. */
  lemma FreezeConservesExactly(f: Overlay<Hash, Stake>, stakes: seq<Stake>, refundHeight: int)
    requires DistinctHashes(stakes) && forall k | k in f.working :: f.working[k].power >= 0
    ensures SumMap(Power, Freeze(f, stakes, refundHeight).working) == SumMap(Power, f.working) + SumPower(stakes)
            <==> !(exists s :: s in stakes && s.txHash in f.working && f.working[s.txHash].power > 0)
  {
    FreezeLaw(f, stakes, refundHeight);
    ClashedIsTaken(f, stakes, refundHeight);
    SumIsZero(TakenFrom(f.working), stakes);
    assert forall s: Stake :: TakenFrom(f.working)(s) == At(Power, f.working, s.txHash);
  }

  // ----- Slashing -----

  lemma PunishDestroys(w: World, addr: Address, ratio: int, used: set<Hash>)
    requires Good(w, used) && 0 <= ratio <= 100
    ensures Good(Punish(w, addr, ratio), used)
    ensures Supply(Punish(w, addr, ratio)) == Supply(w) - AMOUNT_PER_POWER * Destroyed(w, addr, ratio)
    ensures Destroyed(w, addr, ratio) >= 0
    ensures Punish(w, addr, ratio).frozen == w.frozen && Punish(w, addr, ratio).accounts == w.accounts
  {
    var found := w.delegatees.Get(addr);
    if found.Some? {
      var d := found.value;
      var d' := SlashAll(d, ratio);
      SlashBalance(d, ratio);
      SlashCutsStakes(d, ratio);
      forall s | s in d'.stakes ensures s.from in w.accounts.Keys && s.txHash in used {
        assert CutFrom(s, d.stakes);
        var o :| o in d.stakes && s == o.(power := s.power) && 0 <= s.power <= o.power;
      }
      ReplaceKeepsGood(w, addr, d', used, {});
      assert used + {} == used;
      SetDelegatee(w, addr, d');
    }
  }

  // ----- A missed block -----

  lemma SetHeightsConserves(w: World, a: Address, heights: seq<int>, used: set<Hash>)
    requires Good(w, used) && a in w.delegatees.working
    ensures Good(SetHeights(w, a, heights), used) && Supply(SetHeights(w, a, heights)) == Supply(w)
  {
    var d := w.delegatees.working[a].(notSignedHeights := heights);
    SetDelegatee(w, a, d);
    ReplaceKeepsGood(w, a, d, used, {});
    assert used + {} == used;
  }

  lemma DissolveLaw(w: World, a: Address, refundHeight: int, used: set<Hash>)
    requires Good(w, used) && w.delegatees.Get(a).Some?
    ensures Good(Dissolve(w, a, refundHeight), used)
    ensures Supply(Dissolve(w, a, refundHeight))
         == Supply(w) - AMOUNT_PER_POWER * Clashed(w.frozen, w.delegatees.working[a].stakes, refundHeight)
  {
    var stakes := w.delegatees.working[a].stakes;
    FreezeKeepsReady(w.frozen, stakes, refundHeight, w.accounts.Keys);
    FreezeLaw(w.frozen, stakes, refundHeight);
    DelDelegatee(w, a);
  }

  lemma MarkOrStopLaw(w: World, addr: Address, heights: seq<int>, stop: bool, refundHeight: int, used: set<Hash>, stakes: seq<Stake>)
    returns (r: World, clash: int)
    requires Good(w, used) && w.delegatees.Get(addr).Some? && stakes == if stop then w.delegatees.working[addr].stakes else []
    ensures r == MarkOrStop(w, addr, heights, stop, refundHeight) && clash == Clashed(w.frozen, stakes, refundHeight) >= 0
    ensures Good(r, used) && Supply(r) == Supply(w) - AMOUNT_PER_POWER * clash && r.accounts == w.accounts && r.rewards == w.rewards
  {
    r, clash := MarkOrStop(w, addr, heights, stop, refundHeight), Clashed(w.frozen, stakes, refundHeight);
    SetHeightsConserves(w, addr, heights, used);
    if stop {
      DissolveLaw(SetHeights(w, addr, heights), addr, refundHeight, used);
      ClashedIsNonNegative(w.frozen, stakes, refundHeight, w.accounts.Keys);
    }
  }

  lemma MissIsMarkOrStop(w: World, v: VoteInfo, h: int, p: GovParams, d: Delegatee)
    returns (heights: seq<int>, stop: bool, stakes: seq<Stake>, refundHeight: int)
    requires w.delegatees.Get(v.addr) == Some(d) && !v.signed
    ensures MissBlock(w, v.addr, h, p) == MarkOrStop(w, v.addr, heights, stop, refundHeight)
    ensures stakes == (if stop then d.stakes else []) && ClashedByVote(w, v, h, p) == Clashed(w.frozen, stakes, refundHeight)
  {
    heights, stop, refundHeight := Missed(d, h, p).0, IsStopped(d, h, p), h + p.lazyRewardBlocks;
    stakes := if stop then d.stakes else [];
  }

  /** Marking a missed block moves no power; stopping the validator moves all of its power and loses what that overwrites. */
  lemma MissBlockLaw(w: World, v: VoteInfo, h: int, p: GovParams, used: set<Hash>) returns (r: World, clash: int)
    requires Good(w, used) && !v.signed
    ensures r == MissBlock(w, v.addr, h, p) && clash == ClashedByVote(w, v, h, p) >= 0
    ensures Good(r, used) && Supply(r) == Supply(w) - AMOUNT_PER_POWER * clash && r.accounts == w.accounts && r.rewards == w.rewards
  {
    var found := w.delegatees.Get(v.addr);
    if found.None? {
      r, clash := w, 0;
    } else {
      var heights, stop, stakes, refundHeight := MissIsMarkOrStop(w, v, h, p, found.value);
      r, clash := MarkOrStopLaw(w, v.addr, heights, stop, refundHeight, used, stakes);
    }
  }

  // ----- Unstaking -----

  /** The world after one stake has moved from its delegatee to the frozen ledger. */
  function MoveOne(w: World, to: Address, txHash: Hash, refundHeight: int): World
    requires to in w.delegatees.working && FindStake(w.delegatees.working[to].stakes, txHash) >= 0
  {
    var d := w.delegatees.working[to];
    var s := d.stakes[FindStake(d.stakes, txHash)];
    w.(delegatees := w.delegatees.Set(to, WithoutStake(d, txHash)), frozen := w.frozen.Set(txHash, s.(refundHeight := refundHeight)))
  }

  lemma MoveOneKeepsGood(w: World, to: Address, txHash: Hash, refundHeight: int, used: set<Hash>)
    requires Good(w, used) && to in w.delegatees.working && FindStake(w.delegatees.working[to].stakes, txHash) >= 0
    ensures Good(MoveOne(w, to, txHash, refundHeight), used)
  {
    var d := w.delegatees.working[to];
    var s := d.stakes[FindStake(d.stakes, txHash)];
    assert s in d.stakes && s.txHash == txHash;
    DelStakeKeepsSound(d, txHash);
    RemoveByHashRemovesOne(d.stakes, txHash);
    ReplaceKeepsGood(w, to, WithoutStake(d, txHash), used, {});
    assert used + {} == used;
    FreezeOneKeepsReady(w.frozen, s.(refundHeight := refundHeight), w.accounts.Keys);
  }

  lemma MoveOneLaw(w: World, to: Address, txHash: Hash, refundHeight: int, used: set<Hash>)
    requires Good(w, used) && to in w.delegatees.working && FindStake(w.delegatees.working[to].stakes, txHash) >= 0
    ensures Supply(MoveOne(w, to, txHash, refundHeight)) == Supply(w) - AMOUNT_PER_POWER * At(Power, w.frozen.working, txHash)
  {
    var d := w.delegatees.working[to];
    var s := d.stakes[FindStake(d.stakes, txHash)];
    RemoveByHashRemovesOne(d.stakes, txHash);
    SetDelegatee(w, to, WithoutStake(d, txHash));
    SumMapUpdate(Power, w.frozen.working, txHash, s.(refundHeight := refundHeight));
  }

  lemma DelAfterSet(ds: Overlay<Address, Delegatee>, to: Address, d: Delegatee)
    requires ds.Get(to).Some?
    ensures ds.Set(to, d).Del(to) == ds.Del(to)
  {
    assert ds.working[to := d] - {to} == ds.working - {to};
  }

  /** An unstake is the move of one stake, followed by dissolving a delegatee without self power. */
  lemma UnstakeIsMove(w: World, to: Address, txHash: Hash, refundHeight: int)
    requires w.delegatees.Get(to).Some? && FindStake(w.delegatees.working[to].stakes, txHash) >= 0
    requires Sound(w.delegatees.working[to]) && w.delegatees.working[to].addr == to
    ensures Unstaked(w, to, txHash, refundHeight) == UnstakeByMoves(w, to, txHash, refundHeight)
  {
    var d1 := WithoutStake(w.delegatees.working[to], txHash);
    DelStakeKeepsSound(w.delegatees.working[to], txHash);
    if d1.selfPower == 0 {
      DelAllLeavesNothing(d1);
      DelAfterSet(w.delegatees, to, d1);
    } else {
      SelfWithinTotal(d1.stakes, to);
    }
  }

  function UnstakeByMoves(w: World, to: Address, txHash: Hash, refundHeight: int): World
    requires to in w.delegatees.working && FindStake(w.delegatees.working[to].stakes, txHash) >= 0
  {
    var moved := MoveOne(w, to, txHash, refundHeight);
    if moved.delegatees.working[to].selfPower == 0 then Dissolve(moved, to, refundHeight) else moved
  }

  lemma MovesLaw(w: World, to: Address, txHash: Hash, refundHeight: int, used: set<Hash>, r: World)
    requires Good(w, used) && w.delegatees.Get(to).Some? && FindStake(w.delegatees.working[to].stakes, txHash) >= 0
    requires r == UnstakeByMoves(w, to, txHash, refundHeight)
    ensures Good(r, used)
    ensures Supply(r) == Supply(w) - AMOUNT_PER_POWER * Clashed(w.frozen, UnstakedWith(w.delegatees.working[to], txHash), refundHeight)
  {
    var d := w.delegatees.working[to];
    var s, left := d.stakes[FindStake(d.stakes, txHash)], WithoutStake(d, txHash);
    MoveOneKeepsGood(w, to, txHash, refundHeight, used);
    MoveOneLaw(w, to, txHash, refundHeight, used);
    var moved := MoveOne(w, to, txHash, refundHeight);
    if left.selfPower == 0 {
      DissolveLaw(moved, to, refundHeight, used);
      FreezeCons(w.frozen, s, left.stakes, refundHeight);
    } else {
      FreezeCons(w.frozen, s, [], refundHeight);
    }
  }

  /** An unstake moves the power of the stakes it freezes and loses what that overwrites. */
  lemma UnstakeLaw(w: World, from: Address, to: Address, txHash: Hash, refundHeight: int, used: set<Hash>)
    requires Good(w, used) && CanUnstake(w, from, to, txHash)
    ensures var r := Unstaked(w, to, txHash, refundHeight);
            && Good(r, used)
            && Supply(r) == Supply(w) - AMOUNT_PER_POWER * Clashed(w.frozen, UnstakedWith(w.delegatees.working[to], txHash), refundHeight)
  {
    UnstakeIsMove(w, to, txHash, refundHeight);
    MovesLaw(w, to, txHash, refundHeight, used, Unstaked(w, to, txHash, refundHeight));
  }

  /** An unstake that leaves the delegatee without self power deletes it; otherwise it stays, sound. */
  lemma UnstakeWithoutSelfPowerDeletes(w: World, from: Address, to: Address, txHash: Hash, refundHeight: int, used: set<Hash>)
    requires Good(w, used) && CanUnstake(w, from, to, txHash)
    ensures var ds := Unstaked(w, to, txHash, refundHeight).delegatees;
            var left := WithoutStake(w.delegatees.working[to], txHash);
            && (to !in ds.working <==> left.selfPower == 0)
            && (to in ds.working ==> ds.working[to] == left && Sound(left))
  {
    DelStakeKeepsSound(w.delegatees.working[to], txHash);
    UnstakeIsMove(w, to, txHash, refundHeight);
  }

  // ----- Bounds -----

  /** Below this supply neither a 64-bit power nor a 256-bit amount can overflow. */
  const MAX_SUPPLY := I63 * AMOUNT_PER_POWER

  lemma PartsWithinSupply(w: World, used: set<Hash>)
    requires Good(w, used)
    ensures TotalBalance(w.accounts) >= 0 && ActivePower(w) >= 0 && FrozenPower(w) >= 0 && SumMap(Cumulated, w.rewards.working) >= 0
    ensures forall k | k in w.frozen.working :: w.frozen.working[k].power <= FrozenPower(w)
  {
    TotalIsNonNegative(w.accounts);
    forall a | a in w.delegatees.working ensures StakedPower(w.delegatees.working[a]) >= 0 {
      SumSeqNonNegative(Power, w.delegatees.working[a].stakes);
    }
    SumMapNonNegative(StakedPower, w.delegatees.working);
    SumMapNonNegative(Power, w.frozen.working);
    SumMapNonNegative(Cumulated, w.rewards.working);
    forall k | k in w.frozen.working ensures w.frozen.working[k].power <= FrozenPower(w) {
      SumMapBounds(Power, w.frozen.working, k);
    }
  }

  // ----- Rewards -----

  lemma IssueOne(rewards: Overlay<Address, Reward>, owner: Address, amount: nat, h: int)
    requires RewardsUpTo(rewards, h) && SumMap(Cumulated, rewards.working) + amount < U256
    ensures SumMap(Cumulated, rewards.Set(owner, Issued(RewardOf(rewards, owner), amount, h)).working)
         == SumMap(Cumulated, rewards.working) + amount
  {
    SumMapNonNegative(Cumulated, rewards.working);
    SumMapBounds(Cumulated, rewards.working, owner);
    SumMapUpdate(Cumulated, rewards.working, owner, Issued(RewardOf(rewards, owner), amount, h));
  }

  lemma Distributes(a: nat, b: int, c: nat)
    requires b >= 0
    ensures a * (b + c) == a * b + c * a && a * b >= 0 && c * a >= 0
  {
  }

  lemma SplitLast(stakes: seq<Stake>)
    requires stakes != [] && forall s | s in stakes :: s.power >= 0
    ensures var front, s := stakes[..|stakes| - 1], stakes[|stakes| - 1];
            && SumPower(stakes) == SumPower(front) + s.power
            && SumPower(front) >= 0 && s.power >= 0
            && forall x | x in front :: x.power >= 0
  {
    var front, s := stakes[..|stakes| - 1], stakes[|stakes| - 1];
    assert stakes == front + [s] && s in stakes;
    assert forall x | x in front :: x in stakes;
    SumSeqAppend(Power, front, s);
    SumSeqNonNegative(Power, front);
  }

  /** Rewarding a delegatee issues the same amount for every unit of its power. */
  lemma {:induction false} RewardsIssue(rewards: Overlay<Address, Reward>, stakes: seq<Stake>, h: int, perPower: nat)
    requires RewardsUpTo(rewards, h) && forall s | s in stakes :: s.power >= 0
    requires SumMap(Cumulated, rewards.working) + perPower * SumPower(stakes) < U256
    ensures SumMap(Cumulated, RewardStakes(rewards, stakes, h, perPower).working)
         == SumMap(Cumulated, rewards.working) + perPower * SumPower(stakes)
  {
    if stakes != [] {
      SplitLast(stakes);
      var front, s := stakes[..|stakes| - 1], stakes[|stakes| - 1];
      Distributes(perPower, SumPower(front), s.power);
      SumMapNonNegative(Cumulated, rewards.working);
      RewardsIssue(rewards, front, h, perPower);
      var before, issue := RewardStakes(rewards, front, h, perPower), Mul256(s.power, perPower);
      assert issue == s.power * perPower;
      IssueOne(before, s.from, issue, h);
    }
  }

  /**
   A withdrawal is carried out exactly when there is a reward and the amount is below 2^255. It then conserves the
   supply exactly when the reward suffices: otherwise the reward wraps around and 2^256 come up from nowhere.
   */
  lemma WithdrawConservesExactly(w: World, from: Address, amount: Amount256, h: int, used: set<Hash>)
    requires Good(w, used) && from in w.accounts && RewardsUpTo(w.rewards, h) && Supply(w) < MAX_SUPPLY
    ensures var (r, ok) := ExeWithdraw(w, from, amount, h);
            && Good(r, used) && RewardsUpTo(r.rewards, h)
            && (ok <==> from in w.rewards.working && amount < SIGN_BIT)
            && (ok ==> (amount <= w.rewards.working[from].cumulated
                        <==> Supply(r) == Supply(w) && SumMap(Cumulated, r.rewards.working) == SumMap(Cumulated, w.rewards.working) - amount))
  {
    var (r, ok) := ExeWithdraw(w, from, amount, h);
    if ok {
      PartsWithinSupply(w, used);
      SumMapNonNegative(Cumulated, w.rewards.working);
      SumMapBounds(Cumulated, w.rewards.working, from);
      SumMapUpdate(Cumulated, w.rewards.working, from, r.rewards.working[from]);
      CreditAdds(w.accounts, from, amount);
    }
  }

  // ----- Staking -----

  lemma StakingKeepsGood(w: World, from: Address, to: Address, amount: nat, power: nat, txHash: Hash, pubKey: Bytes, h: int, used: set<Hash>)
    requires Good(w, used) && from in w.accounts && amount <= w.accounts[from].balance && txHash !in used
    requires from == to || w.delegatees.Get(to).Some?
    ensures Good(Staked(w, from, to, amount, power, txHash, pubKey, h), used + {txHash})
  {
    var found := w.delegatees.Get(to);
    var d := if found.None? then NewDelegatee(from, pubKey) else found.value;
    var s := Stake(from, to, txHash, h + 1, 0, power);
    assert txHash !in Hashes(d.stakes);
    AddStakeKeepsSound(d, s);
    ReplaceKeepsGood(w, to, WithStake(d, s), used, {txHash});
  }

  lemma UsedGrows(w: World, used: set<Hash>, more: set<Hash>)
    requires Good(w, used)
    ensures Good(w, used + more)
  {
    var ds, owners := w.delegatees.working, w.accounts.Keys;
    forall x | x in ds ensures Holds(ds[x], x, owners, used + more) { assert Holds(ds[x], x, owners, used); }
  }

  /** Staking a whole number of coins moves them from the balance to the delegatee, except for what it overwrites. */
  lemma StakingLaw(w: World, from: Address, to: Address, amount: nat, power: nat, txHash: Hash, pubKey: Bytes, h: int)
    requires from in w.accounts && amount <= w.accounts[from].balance && amount == AMOUNT_PER_POWER * power
    ensures Supply(Staked(w, from, to, amount, power, txHash, pubKey, h)) == Supply(w) - AMOUNT_PER_POWER * Overwritten(w, to)
  {
    var found := w.delegatees.Get(to);
    var d := if found.None? then NewDelegatee(from, pubKey) else found.value;
    var s := Stake(from, to, txHash, h + 1, 0, power);
    SumSeqAppend(Power, d.stakes, s);
    SetDelegatee(w, to, WithStake(d, s));
    DebitSubtracts(w.accounts, from, amount);
  }

  /**
   Hence staking a whole number of coins conserves the supply exactly when it does not stake a second time on
   a delegatee that was deleted and made again in the same block.
   */
  lemma StakingConservesExactly(w: World, from: Address, to: Address, amount: nat, txHash: Hash, pubKey: Bytes, h: int)
    requires from in w.accounts && amount % AMOUNT_PER_POWER == 0 && amount / AMOUNT_PER_POWER < I63
    requires ExeStaking(w, from, to, amount, txHash, pubKey, h).1
    ensures Supply(ExeStaking(w, from, to, amount, txHash, pubKey, h).0) == Supply(w)
            <==> !(to in w.delegatees.dead && to in w.delegatees.working && StakedPower(w.delegatees.working[to]) != 0)
  {
    StakingLaw(w, from, to, amount, amount / AMOUNT_PER_POWER, txHash, pubKey, h);
  }

  // ----- Refunds -----

  function DueAt(f: map<Hash, Stake>, ks: seq<Hash>, h: int): set<Hash>
  {
    set k | k in ks && k in f && f[k].refundHeight <= h
  }

  /** What a stake is worth to an owner at a height. */
  function DueTo(owner: Address, h: int): Stake -> int
  {
    (s: Stake) => if s.refundHeight <= h && s.from == owner then s.power else 0
  }

  /** Every owner's balance has grown by what is refunded to them, and nothing else of an account has changed. */
  ghost predicate Paid(before: Book, after: Book, f: map<Hash, Stake>, ks: seq<Hash>, h: int)
    requires forall k | k in ks :: k in f
  {
    && after.Keys == before.Keys
    && forall a | a in before ::
         && after[a] == before[a].(balance := after[a].balance)
         && after[a].balance == before[a].balance + AMOUNT_PER_POWER * SumKeys(DueTo(a, h), f, ks)
  }

  /** What unfreezing some of the committed frozen stakes has done to the world. */
  ghost predicate Unfrozen(w: World, r: World, ks: seq<Hash>, h: int)
    requires forall k | k in ks :: k in w.frozen.committed
  {
    var due := DueAt(w.frozen.committed, ks, h);
    && r.delegatees == w.delegatees && r.rewards == w.rewards
    && r.frozen == Overlay(w.frozen.committed, w.frozen.working - due, due)
    && Paid(w.accounts, r.accounts, w.frozen.committed, ks, h)
    && TotalBalance(r.accounts) <= TotalBalance(w.accounts) + AMOUNT_PER_POWER * SumKeys(Power, w.frozen.committed, ks)
    && Supply(r) == Supply(w) - AMOUNT_PER_POWER * Misrefunded(w.frozen, ks, h)
  }

  lemma Snoc<T>(s: seq<T>, x: T)
    ensures (s + [x])[..|s|] == s && (s + [x])[|s|] == x && |s + [x]| == |s| + 1
  {
  }

  lemma PayOne(before: Book, after: Book, f: map<Hash, Stake>, ks: seq<Hash>, k: Hash, h: int)
    requires (forall x | x in ks :: x in f) && k in f && Paid(before, after, f, ks, h)
    requires f[k].refundHeight <= h && 0 <= f[k].power < I63 && f[k].from in after
    requires TotalBalance(after) + f[k].power * AMOUNT_PER_POWER < U256
    ensures Paid(before, Credit(after, f[k].from, PowerToAmount(f[k].power)), f, ks + [k], h)
    ensures TotalBalance(Credit(after, f[k].from, PowerToAmount(f[k].power))) == TotalBalance(after) + f[k].power * AMOUNT_PER_POWER
  {
    PowerRoundTrip(f[k].power);
    CreditAdds(after, f[k].from, PowerToAmount(f[k].power));
    Snoc(ks, k);
  }

  lemma DueSnoc(f: map<Hash, Stake>, ks: seq<Hash>, k: Hash, h: int)
    requires k in f && f[k].refundHeight <= h
    ensures DueAt(f, ks + [k], h) == DueAt(f, ks, h) + {k}
  {
    assert forall x :: x in ks + [k] <==> x in ks || x == k;
  }

  lemma DropMore<K, V>(m: map<K, V>, s: set<K>, k: K)
    ensures (m - s) - {k} == m - (s + {k})
  {
  }

  /** The frozen ledger after one more refund: what goes is what stands under the hash by now. */
  lemma RefundRemoves(f: Overlay<Hash, Stake>, r: Overlay<Hash, Stake>, ks: seq<Hash>, k: Hash, h: int)
    requires k !in ks && k in f.committed && k in f.working && f.committed[k].refundHeight <= h
    requires var due := DueAt(f.committed, ks, h); r == Overlay(f.committed, f.working - due, due)
    ensures var due := DueAt(f.committed, ks + [k], h); r.Del(k) == Overlay(f.committed, f.working - due, due)
    ensures SumMap(Power, r.Del(k).working) == SumMap(Power, r.working) - At(Power, f.working, k)
  {
    DueSnoc(f.committed, ks, k, h);
    DropMore(f.working, DueAt(f.committed, ks, h), k);
    SumMapRemove(Power, r.working, k);
  }

  /** The refunds of different committed stakes fit into a balance. */
  lemma RefundFits(f: map<Hash, Stake>, ks: seq<Hash>, k: Hash, before: int, after: int)
    requires Distinct(ks) && k !in ks && k in f && (forall x | x in ks :: x in f) && forall x | x in f :: f[x].power >= 0
    requires SumMap(Power, f) < I63 && before < MAX_SUPPLY && after <= before + AMOUNT_PER_POWER * SumKeys(Power, f, ks)
    ensures f[k].power < I63 && after + f[k].power * AMOUNT_PER_POWER < U256
  {
    SumKeysSplit(Power, f, ks);
    SumMapBounds(Power, f - (set x | x in ks), k);
    SumMapBounds(Power, f, k);
  }

  lemma RefundOne(w: World, r: World, ks: seq<Hash>, k: Hash, h: int, used: set<Hash>) returns (t: World)
    requires Good(w, used) && Supply(w) < MAX_SUPPLY
    requires Distinct(ks) && k !in ks && k in w.frozen.committed && forall x | x in ks :: x in w.frozen.committed
    requires Unfrozen(w, r, ks, h) && w.frozen.committed[k].refundHeight <= h
    ensures w.frozen.committed[k].power >= 0 && w.frozen.committed[k].from in r.accounts
    ensures t == Refund(r, w.frozen.committed[k]) && Unfrozen(w, t, ks + [k], h)
  {
    var f := w.frozen;
    var s := f.committed[k];
    PartsWithinSupply(w, used);
    RefundRemoves(f, r.frozen, ks, k, h);
    RefundFits(f.committed, ks, k, TotalBalance(w.accounts), TotalBalance(r.accounts));
    PayOne(w.accounts, r.accounts, f.committed, ks, k, h);
    t := Refund(r, s);
    Snoc(ks, k);
  }

  lemma NothingUnfrozen(w: World, h: int)
    requires w.frozen.dead == {}
    ensures Unfrozen(w, w, [], h)
  {
    assert DueAt(w.frozen.committed, [], h) == {};
    assert w.frozen.working - {} == w.frozen.working;
  }

  lemma SkipOne(w: World, r: World, ks: seq<Hash>, k: Hash, h: int)
    requires k in w.frozen.committed && forall x | x in ks :: x in w.frozen.committed
    requires Unfrozen(w, r, ks, h) && w.frozen.committed[k].refundHeight > h && w.frozen.committed[k].power >= 0
    ensures Unfrozen(w, r, ks + [k], h)
  {
    assert DueAt(w.frozen.committed, ks + [k], h) == DueAt(w.frozen.committed, ks, h);
    Snoc(ks, k);
  }

  /**
   Unfreezing never fails. It pays each committed stake that is due, in full and to its owner, and removes whatever
   stands under the same hash; the supply is conserved but for stakes that were replaced since the commit.
   */
  lemma {:induction false} UnfreezeRefunds(w: World, ks: seq<Hash>, h: int, used: set<Hash>) returns (r: World)
    requires Good(w, used) && Supply(w) < MAX_SUPPLY
    requires Distinct(ks) && forall k | k in ks :: k in w.frozen.committed && w.frozen.committed[k].power >= 0
    ensures Unfreeze(w, ks, h) == (r, true) && Unfrozen(w, r, ks, h)
  {
    if ks == [] {
      r := w;
      NothingUnfrozen(w, h);
    } else {
      var front, k := ks[..|ks| - 1], ks[|ks| - 1];
      assert ks == front + [k] && k !in front;
      r := UnfreezeRefunds(w, front, h, used);
      if w.frozen.committed[k].refundHeight <= h {
        r := RefundOne(w, r, front, k, h, used);
      } else {
        SkipOne(w, r, front, k, h);
      }
    }
  }
}
