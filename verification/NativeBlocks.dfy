/** Blocks of transfers, documents, proposals and votes only. */
module NativeBlocks {
  import opened Prelude
  import opened Amounts
  import opened Delegatees
  import opened Accounts
  import opened Staking
  import opened Conservation
  import opened Chains
  import opened ChainLaws
  import opened AccountCtrlers

  /** Only accounts and fees move. */
  ghost predicate SameButAccounts(c: Chain, d: Chain)
  {
    d.world == c.world.(accounts := d.world.accounts) && d.books == c.books
  }

  lemma NativeMovesOnlyAccounts(c: Chain, tx: Tx)
    requires IsNative(tx) && RewardsUpTo(c.world.rewards, c.height + 1)
    ensures SameButAccounts(c, Deliver(c, tx).0)
  {
  }

  lemma {:induction false} NativesMoveOnlyAccounts(c: Chain, txs: seq<Tx>)
    requires (forall tx | tx in txs :: IsNative(tx)) && RewardsUpTo(c.world.rewards, c.height + 1)
    ensures SameButAccounts(c, DeliverAll(c, txs))
  {
    if txs != [] {
      var front := txs[..|txs| - 1];
      assert forall tx | tx in front :: tx in txs;
      NativesMoveOnlyAccounts(c, front);
      NativeMovesOnlyAccounts(DeliverAll(c, front), txs[|txs| - 1]);
    }
  }

  lemma PayingMovesOnlyAccounts(c: Chain, proposer: Address)
    requires c.fees < SIGN_BIT
    ensures SameButAccounts(c, PayProposer(c, Some(proposer)))
  {
  }

  lemma BalancesAccountedFor(c: Chain, d: Chain)
    requires SameButAccounts(c, d) && SameAccounting(c, d)
    ensures TotalBalance(d.world.accounts) + d.fees == TotalBalance(c.world.accounts) + c.fees
  {
    assert ActivePower(d.world) == ActivePower(c.world) && FrozenPower(d.world) == FrozenPower(c.world);
  }

  lemma FeesWithinTotal(c: Chain)
    requires ChainInv(c) && Total(c) < MAX_SUPPLY
    ensures c.fees < SIGN_BIT
  {
    PartsWithinSupply(c.world, Taken(c));
  }

  /**
   Over a block of native transactions, transfers to oneself included, the sum of all balances is the same once
   the proposer has been paid: rejected transactions move nothing, and all that executed ones take from their
   senders reaches a receiver or the proposer.
   */
  lemma NativeBlockConserves(c: Chain, txs: seq<Tx>, proposer: Address)
    requires ChainInv(c) && ParamsOk(c.params) && Total(c) < MAX_SUPPLY && NoCollisions(c.used, txs) && c.fees == 0
    requires forall tx | tx in txs :: IsNative(tx)
    ensures var d := PayProposer(DeliverAll(c, txs), Some(proposer));
            TotalBalance(d.world.accounts) == TotalBalance(c.world.accounts) && d.fees == 0
  {
    var m := DeliverAll(c, txs);
    DeliverAllLaw(c, txs);
    NativesMoveOnlyAccounts(c, txs);
    BalancesAccountedFor(c, m);
    FeesWithinTotal(m);
    PayProposerLaw(m, Some(proposer));
    PayingMovesOnlyAccounts(m, proposer);
    BalancesAccountedFor(m, PayProposer(m, Some(proposer)));
  }
}
