/** ctrlers/stake/ctrler.go: StakeCtrler, whose ledgers and lists are changed in place. */
module StakeCtrlers {
  import opened Prelude
  import opened Overlays
  import opened Amounts
  import opened Delegatees
  import opened BlockMarkers
  import opened Rewards
  import opened Accounts
  import opened GovernanceParams
  import opened Staking
  import opened Chains
  import opened Markers
  import opened Genesis
  import V = Validators

  ghost predicate Payable(f: Overlay<Hash, Stake>, ks: seq<Hash>)
  {
    forall k | k in ks :: k in f.committed && f.committed[k].power >= 0
  }

  lemma UnfreezeSnoc(w: World, ks: seq<Hash>, i: nat, h: int)
    requires i < |ks| && Payable(w.frozen, ks)
    ensures Payable(w.frozen, ks[..i]) && Payable(w.frozen, ks[..i + 1])
    ensures var (w1, ok) := Unfreeze(w, ks[..i], h);
            var s := w.frozen.committed[ks[i]];
            Unfreeze(w, ks[..i + 1], h) ==
            if !ok || s.refundHeight > h then (w1, ok)
            else if s.from !in w1.accounts then (w1, false)
            else (Refund(w1, s), true)
  {
    assert ks[..i + 1][..i] == ks[..i];
    assert forall k | k in ks[..i] :: k in ks;
    assert forall k | k in ks[..i + 1] :: k in ks;
  }

  lemma {:induction false} UnfreezeStops(w: World, ks: seq<Hash>, i: nat, h: int)
    requires i <= |ks| && Payable(w.frozen, ks) && Payable(w.frozen, ks[..i]) && !Unfreeze(w, ks[..i], h).1
    ensures Unfreeze(w, ks, h) == Unfreeze(w, ks[..i], h)
    decreases |ks| - i
  {
    if i < |ks| {
      UnfreezeSnoc(w, ks, i, h);
      UnfreezeStops(w, ks, i + 1, h);
    } else {
      assert ks[..i] == ks;
    }
  }

  class StakeCtrler {
    /** The accounts behind the account handler. */
    var accounts: Book
    var delegateeLedger: Overlay<Address, Delegatee>
    var frozenLedger: Overlay<Hash, Stake>
    var rewardLedger: Overlay<Address, Reward>
    /** The versions that the ledgers have committed, and the one whose reward hash is part of the app hash. */
    var delegateeVersion: int
    var frozenVersion: int
    var rewardVersion: int
    var hashedRewardVersion: int
    var allDelegatees: seq<Delegatee>
    var lastValidators: seq<Delegatee>

    ghost function View(): World
      reads this
    {
      World(accounts, delegateeLedger, frozenLedger, rewardLedger)
    }

    /** The genesis delegatees, one after the other. */
    method InitLedger(vals: seq<GenesisValidator>)
      modifies this`delegateeLedger
      ensures delegateeLedger == InitDelegatees(old(delegateeLedger), vals)
    {
      ghost var start := delegateeLedger;
      var i := 0;
      while i < |vals|
        invariant 0 <= i <= |vals|
        invariant delegateeLedger == InitDelegatees(start, vals[..i])
      {
        assert vals[..i + 1][..i] == vals[..i];
        var v := vals[i];
        var d := new DelegateeObject.Decode(NewDelegatee(v.addr, v.pubKey));
        d.AddStake([GenesisStake(v)]);
        assert [GenesisStake(v)][..0] == [];
        delegateeLedger := delegateeLedger.Set(v.addr, d.Encode());
        i := i + 1;
      }
      assert vals[..i] == vals;
    }

    /** Returns the reported slashed power, or None for an unknown delegatee. */
    method DoPunish(addr: Address, ratio: int) returns (slashed: Option<int>)
      modifies this`delegateeLedger
      ensures View() == Punish(old(View()), addr, ratio)
      ensures slashed == match old(delegateeLedger).Get(addr) case None => None case Some(d) => Some(SumCuts(d.stakes, ratio))
    {
      var found := delegateeLedger.Get(addr);
      if found.None? {
        return None;
      }
      var delegatee := new DelegateeObject.Decode(found.value);
      var power := delegatee.DoSlash(ratio);
      delegateeLedger := delegateeLedger.Set(addr, delegatee.Encode());
      slashed := Some(power);
    }

    /** Every stake earns its owner; a reward account is made on the first reward. */
    method DoRewardTo(stakes: seq<Stake>, h: int, perPower: nat)
      requires RewardsUpTo(rewardLedger, h) && forall s | s in stakes :: s.power >= 0
      modifies this`rewardLedger
      ensures rewardLedger == RewardStakes(old(rewardLedger), stakes, h, perPower)
    {
      ghost var start := rewardLedger;
      var i := 0;
      while i < |stakes|
        invariant 0 <= i <= |stakes|
        invariant forall s | s in stakes[..i] :: s in stakes
        invariant rewardLedger == RewardStakes(start, stakes[..i], h, perPower)
      {
        var s0 := stakes[i];
        assert stakes[..i + 1][..i] == stakes[..i];
        var reward := new RewardObject.Decode(RewardOf(rewardLedger, s0.from));
        var panicked := reward.Issue(Mul256(s0.power, perPower), h);
        rewardLedger := rewardLedger.Set(s0.from, reward.Encode());
        i := i + 1;
      }
      assert stakes[..i] == stakes;
    }

    method FreezeStakes(stakes: seq<Stake>, refundHeight: int)
      modifies this`frozenLedger
      ensures frozenLedger == Freeze(old(frozenLedger), stakes, refundHeight)
    {
      ghost var start := frozenLedger;
      var i := 0;
      while i < |stakes|
        invariant 0 <= i <= |stakes|
        invariant frozenLedger == Freeze(start, stakes[..i], refundHeight)
      {
        assert stakes[..i + 1][..i] == stakes[..i];
        frozenLedger := frozenLedger.Set(stakes[i].txHash, stakes[i].(refundHeight := refundHeight));
        i := i + 1;
      }
      assert stakes[..i] == stakes;
    }

    /** The heights a delegatee missed, with the last block marked and the old ones pruned, and their number in the window. */
    static method CountMissed(d: Delegatee, h: int, p: GovParams) returns (heights: seq<int>, notSigned: nat)
      requires Increasing(d.notSignedHeights)
      ensures (heights, notSigned) == Missed(d, h, p)
    {
      var marker := new BlockMarker();
      marker.blockHeights := d.notSignedHeights;
      var _ := marker.Mark(h - 1);
      var s := h - 1 - p.signedBlocksWindow;
      if s < 0 {
        s := 0;
      }
      notSigned := marker.CountInWindow(s, h - 1, true);
      heights := marker.blockHeights;
    }

    /** The vote of a validator that did not sign the last block. */
    method MissedVote(addr: Address, h: int, p: GovParams)
      requires Marked(delegateeLedger.working)
      modifies this`delegateeLedger, this`frozenLedger
      ensures View() == MissBlock(old(View()), addr, h, p)
    {
      var found := delegateeLedger.Get(addr);
      if found.None? {
        return;
      }
      var heights, notSigned := CountMissed(found.value, h, p);
      var delegatee := new DelegateeObject.Decode(found.value.(notSignedHeights := heights));
      delegateeLedger := delegateeLedger.Set(addr, delegatee.Encode());
      if p.signedBlocksWindow - notSigned < p.minSignedBlocks {
        var stakes := delegatee.DelAllStakes();
        FreezeStakes(stakes, h + p.lazyRewardBlocks);
        delegateeLedger := delegateeLedger.Del(addr);
      }
    }

    /** exeStaking; a panic of AmountToPower is reported as a failure. */
    method ExeStakingTrx(from: Address, to: Address, amount: nat, txHash: Hash, pubKey: Bytes, h: int) returns (ok: bool)
      requires from in accounts
      modifies this`accounts, this`delegateeLedger
      ensures (View(), ok) == ExeStaking(old(View()), from, to, amount, txHash, pubKey, h)
    {
      var found := delegateeLedger.Get(to);
      if found.None? && from == to {
        found := Some(NewDelegatee(from, pubKey));
      }
      if found.None? || amount >= SIGN_BIT || amount > accounts[from].balance || AmountToPower(amount).None? {
        return false;
      }
      accounts := Debit(accounts, from, amount);
      var power := AmountToPower(amount).value;
      var delegatee := new DelegateeObject.Decode(found.value);
      var s0 := Stake(from, to, txHash, h + 1, 0, power);
      delegatee.AddStake([s0]);
      assert WithStakes(found.value, [s0]) == WithStake(found.value, s0) by { assert [s0][..0] == []; }
      delegateeLedger := delegateeLedger.Set(to, delegatee.Encode());
      ok := true;
    }

    method ExeUnstakingTrx(from: Address, to: Address, txHash: Hash, refundHeight: int) returns (ok: bool)
      modifies this`frozenLedger, this`delegateeLedger
      ensures (View(), ok) == ExeUnstaking(old(View()), from, to, txHash, refundHeight)
    {
      var found := delegateeLedger.Get(to);
      if found.None? || |txHash| != 32 {
        return false;
      }
      var delegatee := new DelegateeObject.Decode(found.value);
      var i := delegatee.FindStakeIndex(txHash);
      if i < 0 || delegatee.stakes[i].from != from {
        return false;
      }
      var s0 := delegatee.stakes[i];
      var _ := delegatee.DelStake(txHash);
      frozenLedger := frozenLedger.Set(s0.txHash, s0.(refundHeight := refundHeight));
      if delegatee.selfPower == 0 {
        var stakes := delegatee.DelAllStakes();
        FreezeStakes(stakes, refundHeight);
      }
      if delegatee.totalPower == 0 {
        delegateeLedger := delegateeLedger.Del(to);
      } else {
        delegateeLedger := delegateeLedger.Set(to, delegatee.Encode());
      }
      ok := true;
    }

    /** exeWithdraw: an amount that the account refuses leaves the reward as the last commit stored it. */
    method ExeWithdrawTrx(from: Address, amount: Amount256, h: int) returns (ok: bool)
      requires from in accounts && RewardsUpTo(rewardLedger, h)
      modifies this`rewardLedger, this`accounts
      ensures (View(), ok) == ExeWithdraw(old(View()), from, amount, h)
    {
      var found := rewardLedger.Get(from);
      if found.None? {
        return false;
      }
      var reward := new RewardObject.Decode(found.value);
      var panicked := reward.Withdraw(amount, h);
      rewardLedger := rewardLedger.Set(from, reward.Encode());
      if amount >= SIGN_BIT {
        rewardLedger := rewardLedger.CancelSet(from);
        return false;
      }
      accounts := Credit(accounts, from, amount);
      ok := true;
    }

    /** The votes of the last block, one after the other. */
    method DoVotes(votes: seq<VoteInfo>, immutable: map<Address, Delegatee>, h: int, p: GovParams)
      requires RewardsUpTo(rewardLedger, h) && AllSound(immutable) && Marked(delegateeLedger.working)
      modifies this`delegateeLedger, this`frozenLedger, this`rewardLedger
      ensures View() == ProcessVotes(old(View()), votes, immutable, h, p)
    {
      ghost var w := View();
      var i := 0;
      while i < |votes|
        invariant 0 <= i <= |votes| && Marked(delegateeLedger.working)
        invariant View() == ProcessVotes(w, votes[..i], immutable, h, p)
      {
        assert votes[..i + 1][..i] == votes[..i];
        var vote := votes[i];
        VoteKeepsMarked(View(), vote, immutable, h, p);
        if vote.signed {
          if vote.addr in immutable && immutable[vote.addr].totalPower == vote.power {
            DoRewardTo(immutable[vote.addr].stakes, h, p.rewardPerPower);
          }
        } else {
          MissedVote(vote.addr, h, p);
        }
        i := i + 1;
      }
      assert votes[..i] == votes;
    }

    /** unfreezingStakes over the committed frozen stakes, in the order given. */
    method UnfreezingStakes(ks: seq<Hash>, h: int) returns (ok: bool)
      requires Payable(frozenLedger, ks)
      modifies this`accounts, this`frozenLedger
      ensures (View(), ok) == Unfreeze(old(View()), ks, h)
    {
      ghost var w := View();
      var stakes := frozenLedger.committed;
      var i := 0;
      while i < |ks|
        invariant 0 <= i <= |ks| && Payable(w.frozen, ks[..i])
        invariant Unfreeze(w, ks[..i], h) == (View(), true)
      {
        var s0 := stakes[ks[i]];
        UnfreezeSnoc(w, ks, i, h);
        if s0.refundHeight <= h {
          if s0.from !in accounts {
            UnfreezeStops(w, ks, i + 1, h);
            return false;
          }
          accounts := Credit(accounts, s0.from, PowerToAmount(s0.power));
          frozenLedger := frozenLedger.Del(s0.txHash);
        }
        i := i + 1;
      }
      assert ks[..i] == ks;
      ok := true;
    }

    /** The collection of BeginBlock: in the end the delegatees with enough self power, sorted by power. */
    method CollectDelegatees(minPower: int) returns (ghost ds: seq<Delegatee>)
      requires forall a | a in delegateeLedger.committed :: delegateeLedger.committed[a].addr == a
      modifies this`allDelegatees
      ensures V.Eligible(ds, delegateeLedger.committed, minPower) && allDelegatees == Sort(V.PowerLess, ds)
    {
      var list := EligibleDelegatees(delegateeLedger.committed, minPower);
      ds := list;
      allDelegatees := Sort(V.PowerLess, list);
    }

    static method EligibleDelegatees(committed: map<Address, Delegatee>, minPower: int) returns (ds: seq<Delegatee>)
      requires forall a | a in committed :: committed[a].addr == a
      ensures V.Eligible(ds, committed, minPower)
    {
      ds := [];
      var todo := committed.Keys;
      while todo != {}
        invariant todo <= committed.Keys && V.DistinctAddrs(ds)
        invariant forall d :: d in ds <==>
                    d.addr in committed && d.addr !in todo && committed[d.addr] == d && d.selfPower >= minPower
        decreases todo
      {
        var a :| a in todo;
        var d := committed[a];
        if d.selfPower >= minPower {
          assert forall e | e in ds :: e.addr != a;
          ds := ds + [d];
        }
        todo := todo - {a};
      }
    }

    /** The updates lead the consensus engine from the last validators to the new ones, which are remembered. */
    method UpdateValidators(maxVals: nat, ghost consensus: V.ValidatorSet, ghost addrOf: V.AddrOf) returns (ups: seq<V.Update>)
      modifies this`lastValidators
      ensures ups == V.RoundUpdates(V.Tracker(old(lastValidators), consensus), V.Round(allDelegatees, maxVals))
      ensures V.Tracker(lastValidators, V.ApplyAll(addrOf, consensus, ups))
           == V.Advance(addrOf, V.Tracker(old(lastValidators), consensus), V.Round(allDelegatees, maxVals))
    {
      var newValidators := V.Select(allDelegatees, maxVals);
      lastValidators := Sort(V.AddressLess, lastValidators);
      newValidators := Sort(V.AddressLess, newValidators);
      ups := V.ValidatorUpdates(lastValidators, newValidators);
      newValidators := Sort(V.PowerLess, newValidators);
      lastValidators := newValidators;
    }

    /** All three ledgers are committed; their versions must agree, which they do as long as they always did. */
    method Commit(rewardHashInterval: nat) returns (version: Option<int>)
      requires rewardHashInterval > 0
      modifies this`delegateeLedger, this`frozenLedger, this`rewardLedger
      modifies this`delegateeVersion, this`frozenVersion, this`rewardVersion, this`hashedRewardVersion
      ensures View() == CommitWorld(old(View()))
      ensures version == if old(delegateeVersion == frozenVersion == rewardVersion) then Some(old(delegateeVersion) + 1) else None
      ensures delegateeVersion - old(delegateeVersion) == frozenVersion - old(frozenVersion) == rewardVersion - old(rewardVersion) == 1
      ensures hashedRewardVersion == if version.Some? && version.value % rewardHashInterval == 0 then rewardVersion else old(hashedRewardVersion)
    {
      delegateeLedger, delegateeVersion := delegateeLedger.Commit(), delegateeVersion + 1;
      frozenLedger, frozenVersion := frozenLedger.Commit(), frozenVersion + 1;
      rewardLedger, rewardVersion := rewardLedger.Commit(), rewardVersion + 1;
      if delegateeVersion != frozenVersion || frozenVersion != rewardVersion {
        return None;
      }
      if delegateeVersion % rewardHashInterval == 0 {
        hashedRewardVersion := rewardVersion;
      }
      version := Some(delegateeVersion);
    }
  }
}
