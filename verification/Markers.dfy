/**
 The marked heights of every delegatee stay in order through everything that happens to it,
 which is what the counting of missed blocks relies on.
 */
module Markers {
  import opened Prelude
  import opened Delegatees
  import opened BlockMarkers
  import opened Accounts
  import opened GovernanceParams
  import opened Staking
  import opened Chains

  ghost predicate Marked(ds: map<Address, Delegatee>)
  {
    forall a | a in ds :: Increasing(ds[a].notSignedHeights)
  }

  lemma MissedKeepsIncreasing(d: Delegatee, h: int, p: GovParams)
    requires Increasing(d.notSignedHeights)
    ensures Increasing(Missed(d, h, p).0)
  {
    var marked := MarkHeights(d.notSignedHeights, h - 1);
    MarkStaysIncreasing(d.notSignedHeights, h - 1);
    var s := if h - 1 - p.signedBlocksWindow < 0 then 0 else h - 1 - p.signedBlocksWindow;
    PruneStaysIncreasing(marked, s);
  }

  lemma MarkStaysIncreasing(s: seq<int>, h: int)
    requires Increasing(s)
    ensures Increasing(MarkHeights(s, h))
  {
  }

  lemma PruneStaysIncreasing(s: seq<int>, h0: int)
    requires Increasing(s)
    ensures Increasing(Pruned(s, h0))
  {
  }

  lemma MissKeepsMarked(w: World, addr: Address, h: int, p: GovParams)
    requires Marked(w.delegatees.working)
    ensures Marked(MissBlock(w, addr, h, p).delegatees.working)
  {
    var found := w.delegatees.Get(addr);
    if found.Some? { MissedKeepsIncreasing(found.value, h, p); }
  }

  lemma VoteKeepsMarked(w: World, v: VoteInfo, immutable: map<Address, Delegatee>, h: int, p: GovParams)
    requires RewardsUpTo(w.rewards, h) && AllSound(immutable) && Marked(w.delegatees.working)
    ensures Marked(ProcessVote(w, v, immutable, h, p).delegatees.working)
  {
    if !v.signed { MissKeepsMarked(w, v.addr, h, p); }
  }

  lemma {:induction false} VotesKeepMarked(w: World, votes: seq<VoteInfo>, immutable: map<Address, Delegatee>, h: int, p: GovParams)
    requires RewardsUpTo(w.rewards, h) && AllSound(immutable) && Marked(w.delegatees.working)
    ensures Marked(ProcessVotes(w, votes, immutable, h, p).delegatees.working)
  {
    if votes != [] {
      var front := votes[..|votes| - 1];
      VotesKeepMarked(w, front, immutable, h, p);
      VoteKeepsMarked(ProcessVotes(w, front, immutable, h, p), votes[|votes| - 1], immutable, h, p);
    }
  }

  lemma {:induction false} PunishesKeepMarked(w: World, evidence: seq<Address>, ratio: int)
    requires Marked(w.delegatees.working)
    ensures Marked(PunishAll(w, evidence, ratio).delegatees.working)
  {
    if evidence != [] { PunishesKeepMarked(w, evidence[..|evidence| - 1], ratio); }
  }

  lemma BeginKeepsMarked(c: Chain, b: Block)
    requires RewardsUpTo(c.world.rewards, c.height + 1) && HistorySound(c.history) && Marked(c.world.delegatees.working)
    ensures Marked(BeginBlock(c, b).world.delegatees.working)
  {
    var judged, h := AfterEvidence(c, b.evidence), c.height + 1;
    PunishesKeepMarked(c.world, b.evidence, c.params.slashRatio);
    var version := RewardVersion(c.history, h);
    if version.Some? {
      VotesKeepMarked(judged.world, b.votes, version.value, h, c.params);
      VotesChangeWorld(judged, b.votes, version.value, h, c.params);
    }
  }

  lemma StakeKeepsMarked(w: World, from: Address, to: Address, amount: nat, txHash: Hash, pubKey: Bytes, h: int)
    requires from in w.accounts && Marked(w.delegatees.working)
    ensures Marked(ExeStaking(w, from, to, amount, txHash, pubKey, h).0.delegatees.working)
  {
  }

  lemma UnstakeKeepsMarked(w: World, from: Address, to: Address, txHash: Hash, refundHeight: int)
    requires Marked(w.delegatees.working)
    ensures Marked(ExeUnstaking(w, from, to, txHash, refundHeight).0.delegatees.working)
  {
  }

  lemma ExecuteKeepsMarked(w: World, tx: Tx, h: int, p: GovParams)
    requires tx.from in w.accounts && tx.to in w.accounts && RewardsUpTo(w.rewards, h) && Marked(w.delegatees.working)
    ensures Marked(Execute(w, tx, h, p).0.delegatees.working)
  {
    match tx.kind
    case TrxStaking => StakeKeepsMarked(w, tx.from, tx.to, tx.amount, tx.hash, tx.pubKey, h);
    case TrxUnstaking(stakeHash) => UnstakeKeepsMarked(w, tx.from, tx.to, stakeHash, h + p.lazyRewardBlocks);
    case _ =>
  }

  /** Delivery changes the delegatees as execution does, or not at all. */
  lemma DeliverOrNot(c: Chain, tx: Tx)
    requires RewardsUpTo(c.world.rewards, c.height + 1)
    ensures var r := Deliver(c, tx).0.world.delegatees;
            || r == c.world.delegatees
            || (tx.from in c.world.accounts &&
                r == Execute(c.world.(accounts := FindOrNew(c.world.accounts, tx.to)), tx, c.height + 1, c.params).0.delegatees)
  {
  }

  lemma DeliverKeepsMarked(c: Chain, tx: Tx)
    requires RewardsUpTo(c.world.rewards, c.height + 1) && Marked(c.world.delegatees.working)
    ensures Marked(Deliver(c, tx).0.world.delegatees.working)
  {
    DeliverOrNot(c, tx);
    if tx.from in c.world.accounts {
      ExecuteKeepsMarked(c.world.(accounts := FindOrNew(c.world.accounts, tx.to)), tx, c.height + 1, c.params);
    }
  }

  lemma {:induction false} DeliveriesKeepMarked(c: Chain, txs: seq<Tx>)
    requires RewardsUpTo(c.world.rewards, c.height + 1) && Marked(c.world.delegatees.working)
    ensures Marked(DeliverAll(c, txs).world.delegatees.working)
  {
    if txs != [] {
      DeliveriesKeepMarked(c, txs[..|txs| - 1]);
      DeliverKeepsMarked(DeliverAll(c, txs[..|txs| - 1]), txs[|txs| - 1]);
    }
  }

  /** Between genesis and any later block no delegatee's marked heights get out of order. */
  lemma BlockKeepsMarked(c: Chain, b: Block)
    requires RewardsUpTo(c.world.rewards, c.height + 1) && HistorySound(c.history) && Marked(c.world.delegatees.working)
    ensures Marked(DeliverAll(BeginBlock(c, b), b.txs).world.delegatees.working)
  {
    BeginKeepsMarked(c, b);
    DeliveriesKeepMarked(BeginBlock(c, b), b.txs);
  }
}
