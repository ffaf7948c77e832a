/** The public key of every delegatee is the key of its address, given that signatures verify only under the sender's key. */
module DelegateeKeys {
  import opened Prelude
  import opened Delegatees
  import opened Accounts
  import opened GovernanceParams
  import opened Staking
  import opened Chains
  import opened Markers
  import V = Validators

  ghost predicate Keyed(addrOf: V.AddrOf, ds: map<Address, Delegatee>)
  {
    forall a | a in ds :: addrOf(ds[a].pubKey) == ds[a].addr
  }

  /** A signature that verifies was made with the key of the sender's address. */
  predicate SignedBySender(addrOf: V.AddrOf, tx: Tx)
  {
    tx.signatureOk ==> addrOf(tx.pubKey) == tx.from
  }

  /** No delegatee has come up or changed its key. */
  ghost predicate KeepsKeys(ds: map<Address, Delegatee>, after: map<Address, Delegatee>)
  {
    forall a | a in after :: a in ds && after[a].addr == ds[a].addr && after[a].pubKey == ds[a].pubKey
  }

  lemma {:induction false} PunishesKeepKeys(w: World, evidence: seq<Address>, ratio: int)
    ensures KeepsKeys(w.delegatees.working, PunishAll(w, evidence, ratio).delegatees.working)
  {
    if evidence != [] { PunishesKeepKeys(w, evidence[..|evidence| - 1], ratio); }
  }

  lemma MissKeepsKeys(w: World, addr: Address, h: int, p: GovParams)
    ensures KeepsKeys(w.delegatees.working, MissBlock(w, addr, h, p).delegatees.working)
  {
  }

  lemma {:induction false} VotesKeepKeys(w: World, votes: seq<VoteInfo>, immutable: map<Address, Delegatee>, h: int, p: GovParams)
    requires RewardsUpTo(w.rewards, h) && AllSound(immutable)
    ensures KeepsKeys(w.delegatees.working, ProcessVotes(w, votes, immutable, h, p).delegatees.working)
  {
    if votes != [] {
      var front := votes[..|votes| - 1];
      VotesKeepKeys(w, front, immutable, h, p);
      MissKeepsKeys(ProcessVotes(w, front, immutable, h, p), votes[|votes| - 1].addr, h, p);
    }
  }

  lemma BeginKeepsKeys(c: Chain, b: Block)
    requires RewardsUpTo(c.world.rewards, c.height + 1) && HistorySound(c.history)
    ensures KeepsKeys(c.world.delegatees.working, BeginBlock(c, b).world.delegatees.working)
  {
    var judged, h := AfterEvidence(c, b.evidence), c.height + 1;
    PunishesKeepKeys(c.world, b.evidence, c.params.slashRatio);
    var version := RewardVersion(c.history, h);
    if version.Some? {
      VotesKeepKeys(judged.world, b.votes, version.value, h, c.params);
      VotesChangeWorld(judged, b.votes, version.value, h, c.params);
    }
  }

  lemma UnstakeKeepsKeys(w: World, from: Address, to: Address, txHash: Hash, refundHeight: int)
    ensures KeepsKeys(w.delegatees.working, ExeUnstaking(w, from, to, txHash, refundHeight).0.delegatees.working)
  {
  }

  lemma StakeKeepsKeyed(addrOf: V.AddrOf, w: World, from: Address, to: Address, amount: nat, txHash: Hash, pubKey: Bytes, h: int)
    requires from in w.accounts && Keyed(addrOf, w.delegatees.working) && addrOf(pubKey) == from
    ensures Keyed(addrOf, ExeStaking(w, from, to, amount, txHash, pubKey, h).0.delegatees.working)
  {
  }

  lemma ExecuteKeepsKeyed(addrOf: V.AddrOf, w: World, tx: Tx, h: int, p: GovParams)
    requires tx.from in w.accounts && tx.to in w.accounts && RewardsUpTo(w.rewards, h)
    requires Keyed(addrOf, w.delegatees.working) && addrOf(tx.pubKey) == tx.from
    ensures Keyed(addrOf, Execute(w, tx, h, p).0.delegatees.working)
  {
    match tx.kind
    case TrxStaking => StakeKeepsKeyed(addrOf, w, tx.from, tx.to, tx.amount, tx.hash, tx.pubKey, h);
    case TrxUnstaking(stakeHash) => UnstakeKeepsKeys(w, tx.from, tx.to, stakeHash, h + p.lazyRewardBlocks);
    case _ =>
  }

  lemma RejectedKeepsDelegatees(c: Chain, tx: Tx)
    requires RewardsUpTo(c.world.rewards, c.height + 1) && !tx.signatureOk
    ensures Deliver(c, tx).0.world.delegatees == c.world.delegatees
  {
  }

  lemma DeliverKeepsKeyed(addrOf: V.AddrOf, c: Chain, tx: Tx)
    requires RewardsUpTo(c.world.rewards, c.height + 1) && Keyed(addrOf, c.world.delegatees.working) && SignedBySender(addrOf, tx)
    ensures Keyed(addrOf, Deliver(c, tx).0.world.delegatees.working)
  {
    if tx.signatureOk {
      DeliverOrNot(c, tx);
      if tx.from in c.world.accounts {
        ExecuteKeepsKeyed(addrOf, c.world.(accounts := FindOrNew(c.world.accounts, tx.to)), tx, c.height + 1, c.params);
      }
    } else {
      RejectedKeepsDelegatees(c, tx);
    }
  }

  lemma {:induction false} DeliveriesKeepKeyed(addrOf: V.AddrOf, c: Chain, txs: seq<Tx>)
    requires RewardsUpTo(c.world.rewards, c.height + 1) && Keyed(addrOf, c.world.delegatees.working)
    requires forall tx | tx in txs :: SignedBySender(addrOf, tx)
    ensures Keyed(addrOf, DeliverAll(c, txs).world.delegatees.working)
  {
    if txs != [] {
      assert txs[|txs| - 1] in txs && forall tx | tx in txs[..|txs| - 1] :: tx in txs;
      DeliveriesKeepKeyed(addrOf, c, txs[..|txs| - 1]);
      DeliverKeepsKeyed(addrOf, DeliverAll(c, txs[..|txs| - 1]), txs[|txs| - 1]);
    }
  }

  /** Between genesis and any later block every delegatee has the key of its address. */
  lemma BlockKeepsKeyed(addrOf: V.AddrOf, c: Chain, b: Block)
    requires RewardsUpTo(c.world.rewards, c.height + 1) && HistorySound(c.history) && Keyed(addrOf, c.world.delegatees.working)
    requires forall tx | tx in b.txs :: SignedBySender(addrOf, tx)
    ensures Keyed(addrOf, DeliverAll(BeginBlock(c, b), b.txs).world.delegatees.working)
  {
    BeginKeepsKeys(c, b);
    DeliveriesKeepKeyed(addrOf, BeginBlock(c, b), b.txs);
  }
}
