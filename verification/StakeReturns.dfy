/**
 From the unstaking of a stake, or the stop of its validator, to its refund: what is frozen in a block comes back to its
 owner in one block, LazyRewardBlocks later, and never again.
 */
module StakeReturns {
  import opened Prelude
  import opened Amounts
  import opened Delegatees
  import opened GovernanceParams
  import opened Staking
  import opened Conservation
  import opened Chains
  import opened ChainLaws
  import opened Genesis
  import opened ChainRuns
  import opened StakeLives

  // ----- What one block does -----

  /** A hash that was used and stands for no stake any more. */
  ghost predicate Retired(c: Chain, k: Hash)
  {
    k in Taken(c) && !IsLive(c.world, k)
  }

  /** What one block does to a frozen stake and to a retired hash. */
  ghost predicate RefundStep(c: Chain, d: Chain, k: Hash)
  {
    && Tidy(d, k)
    && (k in Refunded(c) ==> Retired(d, k))
    && (Retired(c, k) ==> Retired(d, k))
    && (k in c.world.frozen.committed && k !in Refunded(c) ==>
          k in d.world.frozen.committed && d.world.frozen.committed[k] == c.world.frozen.committed[k])
  }

  lemma FinishTidies(m: Chain, b: Block, d: Chain, k: Hash)
    requires Finished(m, b, d) && Tidy(m, k)
    ensures Tidy(d, k) && (IsLive(d.world, k) ==> IsLive(m.world, k)) && (k in Refunded(m) ==> !IsLive(d.world, k))
  {
    forall a ensures HeldBy(d.world, a, k) <==> HeldBy(m.world, a, k) { }
  }

  lemma BlockRefunds(c: Chain, b: Block, k: Hash)
    requires ChainInv(c) && BlockOk(c, b) && Tidy(c, k)
    ensures RefundStep(c, RunBlock(c, b), k)
  {
    var m, d := Delivered(c, b), RunBlock(c, b);
    DeliveredAdvances(c, b, k);
    FinishLaw(m, b);
    FinishTidies(m, b, d, k);
    assert Refunded(m) == Refunded(c);
  }

  /** The block pays the owner of the stake with hash k: its power in coins, besides their other stakes that are due. */
  ghost predicate PaysBack(c: Chain, b: Block, d: Chain, k: Hash, s: Stake)
    requires ChainInv(c) && BlockOk(c, b)
  {
    var before := PayProposer(Delivered(c, b), b.proposer).world.accounts;
    && s.from in before && s.from in d.world.accounts
    && d.world.accounts[s.from].balance
       == before[s.from].balance + AMOUNT_PER_POWER * (s.power + SumMap(DueTo(s.from, d.height), c.world.frozen.committed - {k}))
  }

  lemma RefundPaysBack(c: Chain, b: Block, k: Hash, s: Stake)
    requires ChainInv(c) && BlockOk(c, b) && k in Refunded(c) && s == c.world.frozen.committed[k]
    ensures PaysBack(c, b, RunBlock(c, b), k, s)
  {
    var m, d, f := Delivered(c, b), RunBlock(c, b), c.world.frozen.committed;
    DeliveredAdvances(c, b, k);
    FinishLaw(m, b);
    OwnerHasAccount(m, b, d, s, k);
    SumMapExtract(DueTo(s.from, d.height), f, k);
  }

  lemma OwnerHasAccount(m: Chain, b: Block, d: Chain, s: Stake, k: Hash)
    requires ChainInv(m) && Finished(m, b, d) && k in m.world.frozen.committed && s == m.world.frozen.committed[k]
    ensures s.from in PayProposer(m, b.proposer).world.accounts && s.from in d.world.accounts
  {
  }

  // ----- What a run does -----

  ghost predicate AllRefund(cs: seq<Chain>, k: Hash)
  {
    forall x | 0 <= x < |cs| - 1 :: cs[x + 1].height == cs[x].height + 1 && (Tidy(cs[x], k) ==> RefundStep(cs[x], cs[x + 1], k))
  }

  lemma TraceRefunds(cs: seq<Chain>, bs: seq<Block>, k: Hash)
    requires IsTrace(cs, bs)
    ensures AllRefund(cs, k)
  {
    forall x | 0 <= x < |cs| - 1 ensures cs[x + 1].height == cs[x].height + 1 && (Tidy(cs[x], k) ==> RefundStep(cs[x], cs[x + 1], k)) {
      assert Follows(cs[x], bs[x], cs[x + 1]);
      if Tidy(cs[x], k) { BlockRefunds(cs[x], bs[x], k); }
    }
  }

  lemma {:induction false} TidyAt(cs: seq<Chain>, k: Hash, x: nat)
    requires AllRefund(cs, k) && x < |cs| && Tidy(cs[0], k) && cs[0].height == 0
    ensures Tidy(cs[x], k) && cs[x].height == x
  {
    if x > 0 { TidyAt(cs, k, x - 1); }
  }

  lemma {:induction false} RetiredStays(cs: seq<Chain>, k: Hash, x: nat, y: nat)
    requires AllRefund(cs, k) && x <= y < |cs| && Tidy(cs[0], k) && cs[0].height == 0 && Retired(cs[x], k)
    ensures Retired(cs[y], k) && k !in Refunded(cs[y])
    decreases y
  {
    TidyAt(cs, k, y);
    if x < y {
      RetiredStays(cs, k, x, y - 1);
      TidyAt(cs, k, y - 1);
    }
  }

  /** A committed frozen stake waits for its refund height. */
  lemma {:induction false} WaitsUntil(cs: seq<Chain>, k: Hash, x: nat, y: nat, s: Stake)
    requires AllRefund(cs, k) && x <= y < |cs| && Tidy(cs[0], k) && cs[0].height == 0
    requires k in cs[x].world.frozen.committed && cs[x].world.frozen.committed[k] == s && (y > x ==> s.refundHeight > y)
    ensures k in cs[y].world.frozen.committed && cs[y].world.frozen.committed[k] == s
    decreases y
  {
    if x < y {
      WaitsUntil(cs, k, x, y - 1, s);
      TidyAt(cs, k, y - 1);
    }
  }

  /** Of all blocks of a run, the n-th and no other refunds the hash. */
  ghost predicate RefundedOnlyAt(cs: seq<Chain>, k: Hash, n: int)
  {
    forall x | 0 <= x < |cs| - 1 :: k in Refunded(cs[x]) <==> x == n
  }

  /** How many blocks after the one that freezes it a stake is refunded. */
  function Delay(lazyRewardBlocks: int): int
  {
    if lazyRewardBlocks < 1 then 1 else lazyRewardBlocks
  }

  lemma NotRefundedBefore(cs: seq<Chain>, k: Hash, i: nat, x: nat)
    requires AllRefund(cs, k) && x < i < |cs| && Tidy(cs[0], k) && cs[0].height == 0 && !Retired(cs[i], k)
    ensures k !in Refunded(cs[x])
  {
    TidyAt(cs, k, x);
    if k in Refunded(cs[x]) { RetiredStays(cs, k, x + 1, i); }
  }

  lemma NotRefundedAfter(cs: seq<Chain>, k: Hash, x: nat, y: nat)
    requires AllRefund(cs, k) && x < y < |cs| && Tidy(cs[0], k) && cs[0].height == 0 && k in Refunded(cs[x])
    ensures k !in Refunded(cs[y])
  {
    TidyAt(cs, k, x);
    RetiredStays(cs, k, x + 1, y);
  }

  lemma RefundedWhenDue(cs: seq<Chain>, k: Hash, i: nat, lazyRewardBlocks: int, s: Stake, x: nat)
    requires AllRefund(cs, k) && i < x < |cs| && x <= i + Delay(lazyRewardBlocks) && Tidy(cs[0], k) && cs[0].height == 0
    requires k in cs[i + 1].world.frozen.committed && cs[i + 1].world.frozen.committed[k] == s
    requires s.refundHeight == i + 1 + lazyRewardBlocks
    ensures k in cs[x].world.frozen.committed && cs[x].world.frozen.committed[k] == s
    ensures k in Refunded(cs[x]) <==> x == i + Delay(lazyRewardBlocks)
  {
    TidyAt(cs, k, x);
    WaitsUntil(cs, k, i + 1, x, s);
  }

  /** A stake that block i freezes, and that was not frozen before, is refunded in one block of the whole run. */
  lemma FrozenComesBackOnce(cs: seq<Chain>, k: Hash, i: nat, lazyRewardBlocks: int, s: Stake)
    requires AllRefund(cs, k) && i + 1 < |cs| && Tidy(cs[0], k) && cs[0].height == 0
    requires !Retired(cs[i], k) && k !in cs[i].world.frozen.committed
    requires k in cs[i + 1].world.frozen.committed && cs[i + 1].world.frozen.committed[k] == s
    requires s.refundHeight == i + 1 + lazyRewardBlocks
    ensures RefundedOnlyAt(cs, k, i + Delay(lazyRewardBlocks))
  {
    var n := i + Delay(lazyRewardBlocks);
    forall x | 0 <= x < |cs| - 1 ensures k in Refunded(cs[x]) <==> x == n {
      if x < i {
        NotRefundedBefore(cs, k, i, x);
      } else if i < x <= n {
        RefundedWhenDue(cs, k, i, lazyRewardBlocks, s, x);
      } else if x > n {
        RefundedWhenDue(cs, k, i, lazyRewardBlocks, s, n);
        NotRefundedAfter(cs, k, n, x);
      }
    }
  }

  lemma GenesisIsTidy(holders: seq<Holder>, vals: seq<GenesisValidator>, p: GovParams, k: Hash)
    requires PowersOk(vals) && k != GENESIS_HASH
    ensures Tidy(InitChain(holders, vals, p), k) && InitChain(holders, vals, p).height == 0
  {
    var c := InitChainIsInv(holders, vals, p);
    forall a ensures !HeldBy(c.world, a, k) {
      if a in c.world.delegatees.working { assert Holds(c.world.delegatees.working[a], a, c.world.accounts.Keys, {GENESIS_HASH}); }
    }
  }

  // ----- From the freezing to the refund -----

  /** k stands for a stake frozen since the last commit, until height rh. */
  ghost predicate FrozenUntil(w: World, k: Hash, s: Stake, rh: int)
  {
    k in w.frozen.working && w.frozen.working[k] == s.(refundHeight := rh) && k !in w.frozen.committed
  }

  /** x is a chain in the middle of a block, y the one after the next step, which freezes the stake with hash k. */
  lemma FrozenMidway(c: Chain, b: Block, x: Chain, y: Chain, k: Hash, s: Stake, rh: int)
    requires ChainInv(c) && BlockOk(c, b) && Tidy(c, k)
    requires Advances(c, x, k) && Advances(x, y, k) && Advances(y, Delivered(c, b), k)
    requires IsLive(x.world, k) && FrozenUntil(y.world, k, s, rh)
    ensures !Retired(c, k) && k !in c.world.frozen.committed
    ensures var d := RunBlock(c, b); k in d.world.frozen.committed && d.world.frozen.committed[k] == s.(refundHeight := rh)
  {
    FinishLaw(Delivered(c, b), b);
  }

  /** The stake with hash k, frozen in block i of a run, comes back to its owner in block i + Delay, and in no other. */
  ghost predicate ComesBack(cs: seq<Chain>, bs: seq<Block>, i: nat, k: Hash, s: Stake, lazyRewardBlocks: int)
    requires |cs| == |bs| + 1
  {
    var n := i + Delay(lazyRewardBlocks);
    && RefundedOnlyAt(cs, k, n)
    && (n < |bs| ==> ChainInv(cs[n]) && BlockOk(cs[n], bs[n]) && PaysBack(cs[n], bs[n], cs[n + 1], k, s))
  }

  lemma FrozenComesBack(cs: seq<Chain>, bs: seq<Block>, i: nat, x: Chain, y: Chain, k: Hash, s: Stake, lazyRewardBlocks: int, rh: int)
    requires IsTrace(cs, bs) && Tidy(cs[0], k) && cs[0].height == 0 && i < |bs| && Follows(cs[i], bs[i], cs[i + 1])
    requires Advances(cs[i], x, k) && Advances(x, y, k) && Advances(y, Delivered(cs[i], bs[i]), k)
    requires IsLive(x.world, k) && FrozenUntil(y.world, k, s, rh) && rh == i + 1 + lazyRewardBlocks
    ensures ComesBack(cs, bs, i, k, s, lazyRewardBlocks)
  {
    var n := i + Delay(lazyRewardBlocks);
    var t := s.(refundHeight := rh);
    TraceRefunds(cs, bs, k);
    TidyAt(cs, k, i);
    FrozenMidway(cs[i], bs[i], x, y, k, s, rh);
    FrozenComesBackOnce(cs, k, i, lazyRewardBlocks, t);
    if n < |bs| {
      RefundedWhenDue(cs, k, i, lazyRewardBlocks, t, n);
      assert Follows(cs[n], bs[n], cs[n + 1]);
      RefundPaysBack(cs[n], bs[n], k, t);
    }
  }

  /** The stake with this hash, as its delegatee holds it. */
  function StakeOf(w: World, to: Address, k: Hash): Option<Stake>
  {
    if to !in w.delegatees.working || FindStake(w.delegatees.working[to].stakes, k) < 0 then None
    else Some(w.delegatees.working[to].stakes[FindStake(w.delegatees.working[to].stakes, k)])
  }

  lemma HeldIsNotFrozen(c: Chain, a: Address, k: Hash)
    requires Tidy(c, k) && HeldBy(c.world, a, k)
    ensures IsLive(c.world, k) && k !in c.world.frozen.committed
  {
  }

  /** An unstake freezes the sender's stake with all its power. */
  lemma UnstakeFreezes(w: World, from: Address, to: Address, k: Hash, rh: int)
    requires AllSound(w.delegatees.working) && CanUnstake(w, from, to, k)
    ensures HeldBy(w, to, k) && StakeOf(w, to, k).Some? && StakeOf(w, to, k).value.from == from
    ensures var f := Unstaked(w, to, k, rh).frozen;
            f.committed == w.frozen.committed && k in f.working && f.working[k] == StakeOf(w, to, k).value.(refundHeight := rh)
  {
    var d, moved := w.delegatees.working[to], MoveOne(w, to, k, rh);
    assert d.stakes[FindStake(d.stakes, k)] in d.stakes && k in Hashes(d.stakes);
    RemoveByHashRemovesOne(d.stakes, k);
    UnstakeIsMove(w, to, k, rh);
    if moved.delegatees.working[to].selfPower == 0 {
      FreezeOnlyHashes(moved.frozen, moved.delegatees.working[to].stakes, rh, k);
      FreezeCommitted(moved.frozen, moved.delegatees.working[to].stakes, rh);
    }
  }

  /** The chain in block b before its transaction number j. */
  function Midway(c: Chain, b: Block, j: nat): Chain
    requires RewardsUpTo(c.world.rewards, c.height + 1) && HistorySound(c.history) && j <= |b.txs|
  {
    DeliverAll(BeginBlock(c, b), b.txs[..j])
  }

  lemma ExecutedIsValid(c: Chain, tx: Tx)
    requires RewardsUpTo(c.world.rewards, c.height + 1) && Deliver(c, tx).1 == Executed
    ensures tx.from in c.world.accounts && ValidByKind(Receiving(c, tx), tx, c.params)
    ensures Deliver(c, tx).0.world.frozen == Execute(Receiving(c, tx), tx, c.height + 1, c.params).0.frozen
  {
  }

  lemma ExecutedIsUnstake(c: Chain, tx: Tx, k: Hash, rh: int)
    requires RewardsUpTo(c.world.rewards, c.height + 1) && tx.kind == TrxUnstaking(k) && Deliver(c, tx).1 == Executed
    requires rh == c.height + 1 + c.params.lazyRewardBlocks
    ensures tx.from in c.world.accounts && CanUnstake(Receiving(c, tx), tx.from, tx.to, k)
    ensures Deliver(c, tx).0.world.frozen == Unstaked(Receiving(c, tx), tx.to, k, rh).frozen
  {
    ExecutedIsValid(c, tx);
    ExecuteIsUnstaking(Receiving(c, tx), tx, c.height + 1, c.params, rh);
  }

  lemma BeginCanDeliver(c: Chain, b: Block, j: nat) returns (s: Chain)
    requires ChainInv(c) && BlockOk(c, b) && j <= |b.txs|
    ensures s == BeginBlock(c, b) && CanDeliver(s, b.txs[..j])
  {
    s := BeginBlock(c, b);
    BeginBlockLaw(c, b);
    assert forall tx | tx in b.txs[..j] :: tx in b.txs;
  }

  lemma MidwayBefore(c: Chain, b: Block, j: nat, k: Hash) returns (x: Chain)
    requires ChainInv(c) && BlockOk(c, b) && j <= |b.txs|
    ensures x == Midway(c, b, j) && ChainInv(x) && x.params == c.params && Advances(c, x, k)
  {
    var txs := b.txs[..j];
    var s := BeginCanDeliver(c, b, j);
    BeginBlockAdvances(c, b, k);
    assert txs[..0] == [];
    DeliverAllLaw(s, txs);
    var s';
    s', x := DeliveriesAdvance(s, txs, 0, k);
    AdvancesThen(c, s, x, k);
  }

  lemma MidwayAfter(c: Chain, b: Block, j: nat, k: Hash) returns (x: Chain, y: Chain)
    requires ChainInv(c) && BlockOk(c, b) && j <= |b.txs|
    ensures x == Midway(c, b, j) && y == Delivered(c, b) && Advances(x, y, k)
  {
    BeginBlockLaw(c, b);
    x, y := DeliveriesAdvance(BeginBlock(c, b), b.txs, j, k);
  }

  lemma MidwayAdvances(c: Chain, b: Block, j: nat, k: Hash) returns (x: Chain)
    requires ChainInv(c) && BlockOk(c, b) && j <= |b.txs|
    ensures x == Midway(c, b, j) && ChainInv(x) && x.params == c.params
    ensures Advances(c, x, k) && Advances(x, Delivered(c, b), k)
  {
    x := MidwayBefore(c, b, j, k);
    var x', y := MidwayAfter(c, b, j, k);
  }

  lemma UnstakedMidway(x: Chain, tx: Tx, k: Hash, rh: int) returns (s: Stake)
    requires rh == x.height + 1 + x.params.lazyRewardBlocks
    requires ChainInv(x) && Tidy(x, k) && tx.kind == TrxUnstaking(k) && Deliver(x, tx).1 == Executed
    ensures IsLive(x.world, k) && StakeOf(x.world, tx.to, k) == Some(s) && s.from == tx.from
    ensures FrozenUntil(Deliver(x, tx).0.world, k, s, rh)
  {
    var w := Receiving(x, tx);
    ExecutedIsUnstake(x, tx, k, rh);
    HeldIsSound(x.world, Taken(x));
    UnstakeFreezes(w, tx.from, tx.to, k, rh);
    s := StakeOf(w, tx.to, k).value;
    assert HeldBy(x.world, tx.to, k);
    HeldIsNotFrozen(x, tx.to, k);
  }

  lemma MidwayNext(c: Chain, b: Block, j: nat)
    requires RewardsUpTo(c.world.rewards, c.height + 1) && HistorySound(c.history) && j < |b.txs|
    ensures Midway(c, b, j + 1) == Deliver(Midway(c, b, j), b.txs[j]).0
  {
    assert b.txs[..j + 1][..j] == b.txs[..j];
  }

  lemma UnstakeInBlock(c: Chain, b: Block, j: nat, k: Hash, rh: int) returns (x: Chain, y: Chain, s: Stake)
    requires rh == c.height + 1 + c.params.lazyRewardBlocks
    requires ChainInv(c) && BlockOk(c, b) && Tidy(c, k) && j < |b.txs| && b.txs[j].kind == TrxUnstaking(k)
    requires Deliver(Midway(c, b, j), b.txs[j]).1 == Executed
    ensures StakeOf(Midway(c, b, j).world, b.txs[j].to, k) == Some(s) && s.from == b.txs[j].from
    ensures Advances(c, x, k) && Advances(x, y, k) && Advances(y, Delivered(c, b), k)
    ensures IsLive(x.world, k) && FrozenUntil(y.world, k, s, rh)
  {
    x := MidwayAdvances(c, b, j, k);
    y := MidwayAdvances(c, b, j + 1, k);
    MidwayNext(c, b, j);
    s := UnstakedMidway(x, b.txs[j], k, rh);
    StepAdvances(c, b, j, k);
  }

  lemma StepAdvances(c: Chain, b: Block, j: nat, k: Hash)
    requires ChainInv(c) && BlockOk(c, b) && j < |b.txs|
    ensures Advances(Midway(c, b, j), Midway(c, b, j + 1), k)
  {
    var txs := b.txs[..j + 1];
    var s := BeginCanDeliver(c, b, j + 1);
    assert txs[..j] == b.txs[..j];
    var x, y := DeliveriesAdvance(s, txs, j, k);
  }

  lemma RunIsTidy(holders: seq<Holder>, vals: seq<GenesisValidator>, p: GovParams, cs: seq<Chain>, bs: seq<Block>, i: nat, k: Hash)
    requires IsRun(holders, vals, p, cs, bs) && i < |bs| && k != GENESIS_HASH
    ensures Tidy(cs[0], k) && cs[0].height == 0 && Follows(cs[i], bs[i], cs[i + 1]) && Tidy(cs[i], k) && cs[i].height == i
  {
    GenesisIsTidy(holders, vals, p, k);
    TraceRefunds(cs, bs, k);
    TidyAt(cs, k, i);
  }

  /** Transaction number j of the block is carried out and unstakes the stake with hash k. */
  ghost predicate Unstakes(c: Chain, b: Block, j: nat, k: Hash)
    requires RewardsUpTo(c.world.rewards, c.height + 1) && HistorySound(c.history)
  {
    j < |b.txs| && b.txs[j].kind == TrxUnstaking(k) && Deliver(Midway(c, b, j), b.txs[j]).1 == Executed
  }

  lemma UnstakedInTrace(cs: seq<Chain>, bs: seq<Block>, i: nat, j: nat, k: Hash, c: Chain, b: Block) returns (s: Stake)
    requires IsTrace(cs, bs) && Tidy(cs[0], k) && cs[0].height == 0 && i < |bs| && c == cs[i] && b == bs[i]
    requires Follows(c, b, cs[i + 1]) && Tidy(c, k) && c.height == i && Unstakes(c, b, j, k)
    ensures StakeOf(Midway(c, b, j).world, b.txs[j].to, k) == Some(s) && s.from == b.txs[j].from
    ensures ComesBack(cs, bs, i, k, s, c.params.lazyRewardBlocks)
  {
    var rh := i + 1 + c.params.lazyRewardBlocks;
    var x, y;
    x, y, s := UnstakeInBlock(c, b, j, k, rh);
    FrozenComesBack(cs, bs, i, x, y, k, s, c.params.lazyRewardBlocks, rh);
  }

  /**
   Over every run from genesis: when block i (of height i + 1) carries out an unstake, the stake was the sender's, and all
   its power comes back to them as coins LazyRewardBlocks later, but not before the next block. No other block of
   the run refunds it.
   */
  lemma UnstakedComesBack(holders: seq<Holder>, vals: seq<GenesisValidator>, p: GovParams, cs: seq<Chain>, bs: seq<Block>,
                          i: nat, j: nat, k: Hash, c: Chain, b: Block) returns (s: Stake)
    requires IsRun(holders, vals, p, cs, bs) && k != GENESIS_HASH && i < |bs| && c == cs[i] && b == bs[i]
    requires Follows(c, b, cs[i + 1]) && Unstakes(c, b, j, k)
    ensures StakeOf(Midway(c, b, j).world, b.txs[j].to, k) == Some(s) && s.from == b.txs[j].from
    ensures ComesBack(cs, bs, i, k, s, c.params.lazyRewardBlocks)
  {
    RunIsTidy(holders, vals, p, cs, bs, i, k);
    s := UnstakedInTrace(cs, bs, i, j, k, c, b);
  }

  // ----- The stop of a validator -----

  /** The chain in block b, whose votes look at this version, before vote number j. */
  function BeforeVote(c: Chain, b: Block, immutable: map<Address, Delegatee>, h: int, j: nat): Chain
    requires RewardsUpTo(c.world.rewards, h) && AllSound(immutable) && j <= |b.votes|
  {
    AfterVotes(AfterEvidence(c, b.evidence), b.votes[..j], immutable, h, c.params)
  }

  /** Vote number j of the block at height h stops the validator d. */
  ghost predicate Stops(c: Chain, b: Block, immutable: map<Address, Delegatee>, h: int, j: nat, d: Delegatee)
    requires RewardsUpTo(c.world.rewards, h) && AllSound(immutable)
  {
    && j < |b.votes| && !b.votes[j].signed && BeforeVote(c, b, immutable, h, j).world.delegatees.Get(b.votes[j].addr) == Some(d)
    && IsStopped(d, h, c.params)
  }

  lemma StopFreezes(w: World, v: VoteInfo, h: int, p: GovParams, d: Delegatee, s: Stake, rh: int)
    requires w.delegatees.Get(v.addr) == Some(d) && Sound(d) && IsStopped(d, h, p) && s in d.stakes && rh == h + p.lazyRewardBlocks
    ensures var f := MissBlock(w, v.addr, h, p).frozen;
            f.committed == w.frozen.committed && s.txHash in f.working && f.working[s.txHash] == s.(refundHeight := rh)
  {
    FreezeAt(w.frozen, d.stakes, rh, s);
    FreezeCommitted(w.frozen, d.stakes, rh);
  }

  lemma StopMidway(x: Chain, v: VoteInfo, immutable: map<Address, Delegatee>, h: int, p: GovParams, d: Delegatee, s: Stake, rh: int)
    requires RewardsUpTo(x.world.rewards, h) && AllSound(immutable) && Tidy(x, s.txHash) && rh == h + p.lazyRewardBlocks
    requires !v.signed && x.world.delegatees.Get(v.addr) == Some(d) && Sound(d) && IsStopped(d, h, p) && s in d.stakes
    ensures IsLive(x.world, s.txHash) && FrozenUntil(AfterVote(x, v, immutable, h, p).world, s.txHash, s, rh)
  {
    StopFreezes(x.world, v, h, p, d, s, rh);
    assert HeldBy(x.world, v.addr, s.txHash);
    HeldIsNotFrozen(x, v.addr, s.txHash);
  }

  lemma VoteNext(c: Chain, b: Block, immutable: map<Address, Delegatee>, h: int, j: nat)
    requires RewardsUpTo(c.world.rewards, h) && AllSound(immutable) && j < |b.votes|
    ensures BeforeVote(c, b, immutable, h, j + 1) == AfterVote(BeforeVote(c, b, immutable, h, j), b.votes[j], immutable, h, c.params)
  {
    assert b.votes[..j + 1][..j] == b.votes[..j];
  }

  lemma BeforeVoteAdvances(c: Chain, b: Block, immutable: map<Address, Delegatee>, h: int, j: nat, k: Hash) returns (x: Chain)
    requires ChainInv(c) && BlockOk(c, b) && h == c.height + 1 && RewardVersion(c.history, h) == Some(immutable) && j <= |b.votes|
    ensures x == BeforeVote(c, b, immutable, h, j) && RewardsUpTo(x.world.rewards, h)
    ensures Advances(c, x, k) && Advances(x, Delivered(c, b), k)
  {
    var judged := AfterEvidence(c, b.evidence);
    x := BeforeVote(c, b, immutable, h, j);
    EvidenceAdvances(c, b.evidence, k);
    VotesAdvance(judged, b.votes[..j], immutable, h, c.params, 0, k);
    assert b.votes[..j][..0] == [];
    AdvancesThen(c, judged, x, k);
    VotesAdvance(judged, b.votes, immutable, h, c.params, j, k);
    var y := MidwayAdvances(c, b, 0, k);
    assert b.txs[..0] == [];
    AdvancesThen(x, y, Delivered(c, b), k);
  }

  lemma StopInBlock(c: Chain, b: Block, immutable: map<Address, Delegatee>, h: int, j: nat, d: Delegatee, s: Stake, rh: int)
    returns (x: Chain, y: Chain)
    requires ChainInv(c) && BlockOk(c, b) && Tidy(c, s.txHash) && h == c.height + 1 && RewardVersion(c.history, h) == Some(immutable)
    requires Stops(c, b, immutable, h, j, d) && Sound(d) && s in d.stakes && rh == h + c.params.lazyRewardBlocks
    ensures Advances(c, x, s.txHash) && Advances(x, y, s.txHash) && Advances(y, Delivered(c, b), s.txHash)
    ensures IsLive(x.world, s.txHash) && FrozenUntil(y.world, s.txHash, s, rh)
  {
    x := BeforeVoteAdvances(c, b, immutable, h, j, s.txHash);
    y := BeforeVoteAdvances(c, b, immutable, h, j + 1, s.txHash);
    VoteNext(c, b, immutable, h, j);
    var z := VoteAdvances(x, b.votes[j], immutable, h, c.params, s.txHash);
    StopMidway(x, b.votes[j], immutable, h, c.params, d, s, rh);
  }

  lemma StoppedIsSound(c: Chain, b: Block, immutable: map<Address, Delegatee>, h: int, j: nat, d: Delegatee)
    requires ChainInv(c) && BlockOk(c, b) && h == c.height + 1 && RewardVersion(c.history, h) == Some(immutable)
    requires Stops(c, b, immutable, h, j, d)
    ensures Sound(d)
  {
    var judged := EvidenceLaw(c, b.evidence);
    IssuePrefix(b.votes, j, immutable, c.params.rewardPerPower);
    var x := VotesLaw(judged, b.votes[..j], immutable, h, c.params, IssuedBy(b.votes[..j], immutable, c.params.rewardPerPower));
  }

  lemma {:induction false} IssuePrefix(votes: seq<VoteInfo>, j: nat, immutable: map<Address, Delegatee>, perPower: nat)
    requires AllSound(immutable) && j <= |votes|
    ensures IssuedBy(votes[..j], immutable, perPower) <= IssuedBy(votes, immutable, perPower)
  {
    if j == |votes| {
      assert votes[..j] == votes;
    } else {
      var n := |votes| - 1;
      assert votes[..n][..j] == votes[..j];
      IssuePrefix(votes[..n], j, immutable, perPower);
      RewardedIssue(immutable, votes[n], perPower);
    }
  }

  lemma StoppedInTrace(cs: seq<Chain>, bs: seq<Block>, i: nat, immutable: map<Address, Delegatee>, h: int, j: nat, d: Delegatee, s: Stake,
                       c: Chain, b: Block)
    requires IsTrace(cs, bs) && Tidy(cs[0], s.txHash) && cs[0].height == 0 && i < |bs| && c == cs[i] && b == bs[i]
    requires Follows(c, b, cs[i + 1]) && Tidy(c, s.txHash) && c.height == i && h == i + 1
    requires RewardVersion(c.history, h) == Some(immutable) && Stops(c, b, immutable, h, j, d) && s in d.stakes
    ensures ComesBack(cs, bs, i, s.txHash, s, c.params.lazyRewardBlocks)
  {
    var rh := i + 1 + c.params.lazyRewardBlocks;
    StoppedIsSound(c, b, immutable, h, j, d);
    var x, y := StopInBlock(c, b, immutable, h, j, d, s, rh);
    FrozenComesBack(cs, bs, i, x, y, s.txHash, s, c.params.lazyRewardBlocks, rh);
  }

  /** The same holds for every stake of a validator that a vote of block i stops. */
  lemma StoppedComesBack(holders: seq<Holder>, vals: seq<GenesisValidator>, p: GovParams, cs: seq<Chain>, bs: seq<Block>,
                         i: nat, immutable: map<Address, Delegatee>, j: nat, d: Delegatee, s: Stake, c: Chain, b: Block)
    requires IsRun(holders, vals, p, cs, bs) && s.txHash != GENESIS_HASH && i < |bs| && c == cs[i] && b == bs[i] && Follows(c, b, cs[i + 1])
    requires RewardVersion(c.history, c.height + 1) == Some(immutable) && Stops(c, b, immutable, c.height + 1, j, d) && s in d.stakes
    ensures ComesBack(cs, bs, i, s.txHash, s, c.params.lazyRewardBlocks)
  {
    RunIsTidy(holders, vals, p, cs, bs, i, s.txHash);
    StoppedInTrace(cs, bs, i, immutable, c.height + 1, j, d, s, c, b);
  }
}
