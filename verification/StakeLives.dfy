/**
 The life of a stake, followed by its hash: it is held by a delegatee, frozen, and gone. No hash but the one of genesis
 ever stands for two stakes at a time, and none comes up again.
 */
module StakeLives {
  import opened Prelude
  import opened Overlays
  import opened Amounts
  import opened Delegatees
  import opened GovernanceParams
  import opened Staking
  import opened Conservation
  import opened Chains
  import opened ChainLaws
  import opened ChainRuns

  ghost predicate HeldBy(w: World, a: Address, k: Hash)
  {
    a in w.delegatees.working && k in Hashes(w.delegatees.working[a].stakes)
  }

  /** The hash stands for a stake that is active or frozen. */
  ghost predicate IsLive(w: World, k: Hash)
  {
    k in w.frozen.working || exists a :: HeldBy(w, a, k)
  }

  /** The hash stands for one stake at most. */
  ghost predicate IsApart(w: World, k: Hash)
  {
    && (forall a, b | HeldBy(w, a, k) && HeldBy(w, b, k) :: a == b)
    && (k in w.frozen.working ==> forall a :: !HeldBy(w, a, k))
  }

  /** From w to r a frozen stake stays as it is. */
  ghost predicate FrozenStays(w: World, r: World, k: Hash)
  {
    k in w.frozen.working ==> k in r.frozen.working && r.frozen.working[k] == w.frozen.working[k]
  }

  /** From w to r the hash has come up only if it is new, and has stayed apart. */
  ghost predicate Moves(w: World, r: World, k: Hash, isNew: bool)
  {
    && r.frozen.committed == w.frozen.committed
    && (IsLive(r, k) ==> IsLive(w, k) || isNew)
    && (IsApart(w, k) && (isNew ==> !IsLive(w, k)) ==> IsApart(r, k) && FrozenStays(w, r, k))
  }

  lemma SameStakesMove(w: World, r: World, k: Hash, isNew: bool)
    requires r.frozen == w.frozen && r.delegatees == w.delegatees
    ensures Moves(w, r, k, isNew)
  {
    forall a ensures HeldBy(r, a, k) <==> HeldBy(w, a, k) { }
  }

  /** One delegatee has changed, and at most stakes that it held have been frozen. */
  lemma OneDelegateeMoves(w: World, r: World, a: Address, k: Hash, isNew: bool)
    requires r.frozen.committed == w.frozen.committed
    requires forall x | x != a :: HeldBy(r, x, k) <==> HeldBy(w, x, k)
    requires HeldBy(r, a, k) ==> HeldBy(w, a, k) || isNew
    requires k in r.frozen.working ==> k in w.frozen.working || (HeldBy(w, a, k) && !HeldBy(r, a, k))
    requires !HeldBy(w, a, k) ==> FrozenStays(w, r, k)
    ensures Moves(w, r, k, isNew)
  {
    if IsLive(r, k) && k !in r.frozen.working {
      var x :| HeldBy(r, x, k);
      assert x != a ==> HeldBy(w, x, k);
    }
  }

  lemma OthersHold(w: World, r: World, a: Address, k: Hash)
    requires forall x | x != a :: x in r.delegatees.working <==> x in w.delegatees.working
    requires forall x | x != a && x in r.delegatees.working :: r.delegatees.working[x] == w.delegatees.working[x]
    ensures forall x | x != a :: HeldBy(r, x, k) <==> HeldBy(w, x, k)
  {
  }

  lemma MovesThen(w: World, r: World, t: World, k: Hash)
    requires Moves(w, r, k, false) && Moves(r, t, k, false)
    ensures Moves(w, t, k, false)
  {
  }

  // ----- One operation on the stakes -----

  lemma FreezeAt(f: Overlay<Hash, Stake>, stakes: seq<Stake>, refundHeight: int, s: Stake)
    requires DistinctHashes(stakes) && s in stakes
    ensures var r := Freeze(f, stakes, refundHeight).working; s.txHash in r && r[s.txHash] == s.(refundHeight := refundHeight)
  {
    var front, last := stakes[..|stakes| - 1], stakes[|stakes| - 1];
    if s != last {
      assert s in front;
      FreezeAt(f, front, refundHeight, s);
    }
  }

  lemma {:induction false} FreezeCommitted(f: Overlay<Hash, Stake>, stakes: seq<Stake>, refundHeight: int)
    ensures Freeze(f, stakes, refundHeight).committed == f.committed
  {
    if stakes != [] { FreezeCommitted(f, stakes[..|stakes| - 1], refundHeight); }
  }

  lemma FreezeOnlyHashes(f: Overlay<Hash, Stake>, stakes: seq<Stake>, refundHeight: int, k: Hash)
    requires k !in Hashes(stakes)
    ensures var r := Freeze(f, stakes, refundHeight).working; (k in r <==> k in f.working) && (k in r ==> r[k] == f.working[k])
  {
    FreezeLeavesOthers(f, stakes, refundHeight, k);
  }

  lemma DissolveMoves(w: World, a: Address, refundHeight: int, k: Hash)
    requires w.delegatees.Get(a).Some?
    ensures Moves(w, Dissolve(w, a, refundHeight), k, false)
  {
    var r, stakes := Dissolve(w, a, refundHeight), w.delegatees.working[a].stakes;
    FreezeCommitted(w.frozen, stakes, refundHeight);
    if k !in Hashes(stakes) { FreezeOnlyHashes(w.frozen, stakes, refundHeight, k); }
    OthersHold(w, r, a, k);
    OneDelegateeMoves(w, r, a, k, false);
  }

  lemma SetHeightsMoves(w: World, a: Address, heights: seq<int>, k: Hash)
    requires a in w.delegatees.working
    ensures Moves(w, SetHeights(w, a, heights), k, false)
  {
    OthersHold(w, SetHeights(w, a, heights), a, k);
    OneDelegateeMoves(w, SetHeights(w, a, heights), a, k, false);
  }

  lemma MissMoves(w: World, addr: Address, h: int, p: GovParams, k: Hash) returns (r: World)
    ensures r == MissBlock(w, addr, h, p) && Moves(w, r, k, false)
  {
    var found := w.delegatees.Get(addr);
    if found.None? {
      r := w;
      SameStakesMove(w, w, k, false);
    } else {
      var heights := Missed(found.value, h, p).0;
      r := SetHeights(w, addr, heights);
      SetHeightsMoves(w, addr, heights, k);
      if IsStopped(found.value, h, p) {
        var marked := r;
        r := Dissolve(marked, addr, h + p.lazyRewardBlocks);
        DissolveMoves(marked, addr, h + p.lazyRewardBlocks, k);
        MovesThen(w, marked, r, k);
      }
    }
  }

  lemma PunishMoves(w: World, addr: Address, ratio: int, k: Hash)
    requires 0 <= ratio <= 100 && AllSound(w.delegatees.working)
    ensures Moves(w, Punish(w, addr, ratio), k, false)
  {
    var r := Punish(w, addr, ratio);
    if w.delegatees.Get(addr).Some? {
      SlashBalance(w.delegatees.working[addr], ratio);
      OthersHold(w, r, addr, k);
      OneDelegateeMoves(w, r, addr, k, false);
    } else {
      SameStakesMove(w, r, k, false);
    }
  }

  lemma MoveOneMoves(w: World, to: Address, txHash: Hash, refundHeight: int, k: Hash)
    requires to in w.delegatees.working && FindStake(w.delegatees.working[to].stakes, txHash) >= 0 && Sound(w.delegatees.working[to])
    ensures Moves(w, MoveOne(w, to, txHash, refundHeight), k, false)
  {
    var d, r := w.delegatees.working[to], MoveOne(w, to, txHash, refundHeight);
    assert d.stakes[FindStake(d.stakes, txHash)] in d.stakes && txHash in Hashes(d.stakes);
    RemoveByHashRemovesOne(d.stakes, txHash);
    OthersHold(w, r, to, k);
    OneDelegateeMoves(w, r, to, k, false);
  }

  lemma UnstakeMoves(w: World, from: Address, to: Address, txHash: Hash, refundHeight: int, k: Hash)
    requires AllSound(w.delegatees.working) && CanUnstake(w, from, to, txHash)
    ensures Moves(w, Unstaked(w, to, txHash, refundHeight), k, false)
  {
    var moved := MoveOne(w, to, txHash, refundHeight);
    MoveOneMoves(w, to, txHash, refundHeight, k);
    UnstakeIsMove(w, to, txHash, refundHeight);
    if moved.delegatees.working[to].selfPower == 0 {
      DissolveMoves(moved, to, refundHeight, k);
      MovesThen(w, moved, Dissolve(moved, to, refundHeight), k);
    }
  }

  lemma StakeMoves(w: World, from: Address, to: Address, amount: nat, power: nat, txHash: Hash, pubKey: Bytes, h: int, k: Hash)
    requires from in w.accounts && amount <= w.accounts[from].balance
    ensures Moves(w, Staked(w, from, to, amount, power, txHash, pubKey, h), k, k == txHash)
  {
    var found := w.delegatees.Get(to);
    var d := if found.None? then NewDelegatee(from, pubKey) else found.value;
    var r := Staked(w, from, to, amount, power, txHash, pubKey, h);
    HashesSnoc(d.stakes, Stake(from, to, txHash, h + 1, 0, power));
    assert found.None? ==> Hashes(d.stakes) == {};
    OthersHold(w, r, to, k);
    OneDelegateeMoves(w, r, to, k, k == txHash);
  }

  lemma HashesSnoc(front: seq<Stake>, s: Stake)
    ensures Hashes(front + [s]) == Hashes(front) + {s.txHash}
  {
    assert forall x :: x in front + [s] <==> x in front || x == s;
  }

  // ----- The stages of a block -----

  lemma OthersKeepStakes(w: World, tx: Tx, h: int, p: GovParams)
    requires RewardsUpTo(w.rewards, h) && tx.from in w.accounts && tx.to in w.accounts
    requires !tx.kind.TrxStaking? && !tx.kind.TrxUnstaking?
    ensures var r := Execute(w, tx, h, p).0; r.frozen == w.frozen && r.delegatees == w.delegatees
  {
  }

  lemma UnstakingMoves(w: World, from: Address, to: Address, txHash: Hash, refundHeight: int, k: Hash) returns (r: World)
    requires AllSound(w.delegatees.working)
    ensures r == ExeUnstaking(w, from, to, txHash, refundHeight).0 && Moves(w, r, k, false)
  {
    r := ExeUnstaking(w, from, to, txHash, refundHeight).0;
    if CanUnstake(w, from, to, txHash) {
      UnstakeMoves(w, from, to, txHash, refundHeight, k);
    } else {
      SameStakesMove(w, w, k, false);
    }
  }

  lemma StakingMoves(w: World, from: Address, to: Address, amount: nat, txHash: Hash, pubKey: Bytes, h: int, k: Hash) returns (r: World)
    requires from in w.accounts
    ensures r == ExeStaking(w, from, to, amount, txHash, pubKey, h).0 && Moves(w, r, k, k == txHash)
  {
    r := ExeStaking(w, from, to, amount, txHash, pubKey, h).0;
    if ExeStaking(w, from, to, amount, txHash, pubKey, h).1 {
      StakeMoves(w, from, to, amount, AmountToPower(amount).value, txHash, pubKey, h, k);
    } else {
      SameStakesMove(w, w, k, k == txHash);
    }
  }

  lemma NewIsWeaker(w: World, r: World, k: Hash, isNew: bool)
    requires Moves(w, r, k, false)
    ensures Moves(w, r, k, isNew)
  {
  }

  lemma ExecuteIsUnstaking(w: World, tx: Tx, h: int, p: GovParams, rh: int)
    requires rh == h + p.lazyRewardBlocks && RewardsUpTo(w.rewards, h) && tx.from in w.accounts && tx.to in w.accounts && tx.kind.TrxUnstaking?
    ensures Execute(w, tx, h, p) == ExeUnstaking(w, tx.from, tx.to, tx.kind.stakeHash, rh)
  {
  }

  lemma ExecuteMoves(w: World, tx: Tx, h: int, p: GovParams, k: Hash) returns (r: World)
    requires AllSound(w.delegatees.working) && RewardsUpTo(w.rewards, h) && tx.from in w.accounts && tx.to in w.accounts
    ensures r == Execute(w, tx, h, p).0 && Moves(w, r, k, k == tx.hash)
  {
    if tx.kind.TrxStaking? {
      r := StakingMoves(w, tx.from, tx.to, tx.amount, tx.hash, tx.pubKey, h, k);
    } else if tx.kind.TrxUnstaking? {
      var rh := h + p.lazyRewardBlocks;
      ExecuteIsUnstaking(w, tx, h, p, rh);
      r := UnstakingMoves(w, tx.from, tx.to, tx.kind.stakeHash, rh, k);
      NewIsWeaker(w, r, k, k == tx.hash);
    } else {
      r := Execute(w, tx, h, p).0;
      OthersKeepStakes(w, tx, h, p);
      SameStakesMove(w, r, k, k == tx.hash);
    }
  }

  /** In a chain: apart, known as used, and as committed if it was frozen at the last commit. */
  ghost predicate Tidy(c: Chain, k: Hash)
  {
    && IsApart(c.world, k) && (IsLive(c.world, k) ==> k in Taken(c))
    && (k in c.world.frozen.committed ==> k in c.world.frozen.working && c.world.frozen.working[k] == c.world.frozen.committed[k])
  }

  /** What a stage of a block does to a hash. */
  ghost predicate Advances(c: Chain, d: Chain, k: Hash)
  {
    && d.world.frozen.committed == c.world.frozen.committed && Taken(c) <= Taken(d) && d.height == c.height
    && (IsLive(d.world, k) ==> IsLive(c.world, k) || k !in Taken(c))
    && (Tidy(c, k) ==> Tidy(d, k) && FrozenStays(c.world, d.world, k))
  }

  lemma MovesAdvance(c: Chain, d: Chain, k: Hash, isNew: bool)
    requires Moves(c.world, d.world, k, isNew) && Taken(c) <= Taken(d) && d.height == c.height
    requires isNew ==> k !in Taken(c) && k in Taken(d)
    ensures Advances(c, d, k)
  {
  }

  lemma SameAdvances(c: Chain, d: Chain, k: Hash)
    requires d.world.frozen == c.world.frozen && d.world.delegatees == c.world.delegatees && Taken(c) <= Taken(d) && d.height == c.height
    ensures Advances(c, d, k)
  {
    SameStakesMove(c.world, d.world, k, false);
    MovesAdvance(c, d, k, false);
  }

  lemma AdvancesThen(c: Chain, d: Chain, e: Chain, k: Hash)
    requires Advances(c, d, k) && Advances(d, e, k)
    ensures Advances(c, e, k)
  {
  }

  lemma ChargedAdvances(c: Chain, w: World, r: World, d: Chain, hash: Hash, k: Hash)
    requires w.frozen == c.world.frozen && w.delegatees == c.world.delegatees && Moves(w, r, k, k == hash) && hash !in Taken(c)
    requires d.world.frozen == r.frozen && d.world.delegatees == r.delegatees && Taken(d) == Taken(c) + {hash} && d.height == c.height
    ensures Advances(c, d, k)
  {
    var c' := c.(world := w);
    SameAdvances(c, c', k);
    var d' := d.(world := r);
    MovesAdvance(c', d', k, k == hash);
    AdvancesThen(c, c', d', k);
    SameAdvances(d', d, k);
    AdvancesThen(c, d', d, k);
  }

  lemma CarriedOutAdvances(c: Chain, w: World, tx: Tx, r: World, fee: nat, k: Hash)
    requires ChainInv(c) && w == Receiving(c, tx) && tx.from in w.accounts && tx.to in w.accounts && tx.hash !in Taken(c)
    requires Good(w, Taken(c)) && RewardsUpTo(w.rewards, c.height + 1) && Execute(w, tx, c.height + 1, c.params) == (r, true)
    requires tx.from in r.accounts && fee <= r.accounts[tx.from].balance
    ensures Advances(c, Charged(c, w, r, tx, fee), k)
  {
    HeldIsSound(w, Taken(c));
    var x := ExecuteMoves(w, tx, c.height + 1, c.params, k);
    ChargedAdvances(c, w, r, Charged(c, w, r, tx, fee), tx.hash, k);
  }

  lemma DeliverAdvances(c: Chain, tx: Tx, k: Hash) returns (d: Chain)
    requires ChainInv(c) && ParamsOk(c.params) && Total(c) < MAX_SUPPLY && NoCollision(c.used, tx)
    ensures d == Deliver(c, tx).0 && Advances(c, d, k)
  {
    if tx.from in c.world.accounts && Validate(Receiving(c, tx), tx, c.params) {
      var w := Receiving(c, tx);
      var r := ValidatedRuns(c, tx);
      DeliverIsCharge(c, tx, r);
      ReceivingKeeps(c, tx);
      d := Charged(c, w, r, tx, Fee(tx));
      CarriedOutAdvances(c, w, tx, r, Fee(tx), k);
    } else {
      d := Deliver(c, tx).0;
      SameAdvances(c, d, k);
    }
  }

  ghost predicate CanDeliver(c: Chain, txs: seq<Tx>)
  {
    ChainInv(c) && ParamsOk(c.params) && Total(c) < MAX_SUPPLY && NoCollisions(c.used, txs)
  }

  lemma FrontCanDeliver(c: Chain, txs: seq<Tx>) returns (m: Chain)
    requires CanDeliver(c, txs) && txs != []
    ensures CanDeliver(c, txs[..|txs| - 1]) && m == DeliverAll(c, txs[..|txs| - 1])
    ensures ChainInv(m) && ParamsOk(m.params) && Total(m) < MAX_SUPPLY && NoCollision(m.used, txs[|txs| - 1])
  {
    var front, tx := txs[..|txs| - 1], txs[|txs| - 1];
    assert txs == front + [tx];
    m := DeliverAll(c, front);
    CollisionsSnoc(c.used, m.used, front, tx);
    DeliverAllLaw(c, front);
  }

  /** The transactions from the j-th on. */
  lemma {:induction false} DeliveriesAdvance(c: Chain, txs: seq<Tx>, j: nat, k: Hash) returns (x: Chain, y: Chain)
    requires CanDeliver(c, txs) && j <= |txs|
    ensures x == DeliverAll(c, txs[..j]) && y == DeliverAll(c, txs) && Advances(x, y, k)
    decreases |txs|
  {
    if j == |txs| {
      assert txs[..j] == txs;
      x, y := DeliverAll(c, txs), DeliverAll(c, txs);
      SameAdvances(x, y, k);
    } else {
      var front, tx := txs[..|txs| - 1], txs[|txs| - 1];
      var m' := FrontCanDeliver(c, txs);
      assert front[..j] == txs[..j];
      var m;
      x, m := DeliveriesAdvance(c, front, j, k);
      y := DeliverAdvances(m, tx, k);
      AdvancesThen(x, m, y, k);
    }
  }

  lemma {:induction false} PunishAllMoves(w: World, evidence: seq<Address>, ratio: int, used: set<Hash>, k: Hash)
    requires Good(w, used) && 0 <= ratio <= 100
    ensures Moves(w, PunishAll(w, evidence, ratio), k, false)
  {
    if evidence == [] {
      SameStakesMove(w, w, k, false);
    } else {
      var front := evidence[..|evidence| - 1];
      var m := PunishAll(w, front, ratio);
      PunishAllLaw(w, front, ratio, used);
      PunishAllMoves(w, front, ratio, used, k);
      HeldIsSound(m, used);
      PunishMoves(m, evidence[|evidence| - 1], ratio, k);
      MovesThen(w, m, PunishAll(w, evidence, ratio), k);
    }
  }

  lemma EvidenceAdvances(c: Chain, evidence: seq<Address>, k: Hash)
    requires ChainInv(c) && ParamsOk(c.params)
    ensures Advances(c, AfterEvidence(c, evidence), k)
  {
    PunishAllMoves(c.world, evidence, c.params.slashRatio, Taken(c), k);
    MovesAdvance(c, AfterEvidence(c, evidence), k, false);
  }

  lemma VoteAdvances(c: Chain, v: VoteInfo, immutable: map<Address, Delegatee>, h: int, p: GovParams, k: Hash) returns (d: Chain)
    requires RewardsUpTo(c.world.rewards, h) && AllSound(immutable)
    ensures d == AfterVote(c, v, immutable, h, p) && Advances(c, d, k)
  {
    d := AfterVote(c, v, immutable, h, p);
    if v.signed {
      SameAdvances(c, d, k);
    } else {
      var r := MissMoves(c.world, v.addr, h, p, k);
      MovesAdvance(c, d, k, false);
    }
  }

  /** The votes from the j-th on. */
  lemma {:induction false} VotesAdvance(c: Chain, votes: seq<VoteInfo>, immutable: map<Address, Delegatee>, h: int, p: GovParams, j: nat, k: Hash)
    requires RewardsUpTo(c.world.rewards, h) && AllSound(immutable) && j <= |votes|
    ensures Advances(AfterVotes(c, votes[..j], immutable, h, p), AfterVotes(c, votes, immutable, h, p), k)
    decreases |votes|
  {
    if j == |votes| {
      assert votes[..j] == votes;
      SameAdvances(AfterVotes(c, votes, immutable, h, p), AfterVotes(c, votes, immutable, h, p), k);
    } else {
      var n := |votes| - 1;
      assert votes[..n][..j] == votes[..j];
      VotesAdvance(c, votes[..n], immutable, h, p, j, k);
      var d := VoteAdvances(AfterVotes(c, votes[..n], immutable, h, p), votes[n], immutable, h, p, k);
      AdvancesThen(AfterVotes(c, votes[..j], immutable, h, p), AfterVotes(c, votes[..n], immutable, h, p), d, k);
    }
  }

  lemma BeginBlockAdvances(c: Chain, b: Block, k: Hash)
    requires ChainInv(c) && BlockOk(c, b)
    ensures Advances(c, BeginBlock(c, b), k)
  {
    var judged := AfterEvidence(c, b.evidence);
    EvidenceAdvances(c, b.evidence, k);
    var version := RewardVersion(c.history, c.height + 1);
    if version.Some? {
      VotesAdvance(judged, b.votes, version.value, c.height + 1, c.params, 0, k);
      assert b.votes[..0] == [];
      AdvancesThen(c, judged, BeginBlock(c, b), k);
    }
  }

  lemma DeliveredAdvances(c: Chain, b: Block, k: Hash)
    requires ChainInv(c) && BlockOk(c, b)
    ensures Advances(c, Delivered(c, b), k)
  {
    var s := BeginBlock(c, b);
    BeginBlockLaw(c, b);
    BeginBlockAdvances(c, b, k);
    var x, y := DeliveriesAdvance(s, b.txs, 0, k);
    assert b.txs[..0] == [];
    AdvancesThen(c, s, y, k);
  }
}
