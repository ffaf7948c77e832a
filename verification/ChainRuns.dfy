/**
 Runs of blocks from genesis: the account of all coins over a whole run, and that no transaction is carried out twice.
 */
module ChainRuns {
  import opened Prelude
  import opened Overlays
  import opened Amounts
  import opened Delegatees
  import opened Accounts
  import opened GovernanceParams
  import opened Staking
  import opened Conservation
  import opened Chains
  import opened ChainLaws
  import opened Genesis

  // ----- End of block and commit -----

  /** The stakes that the block after this chain refunds. */
  function Refunded(c: Chain): set<Hash>
  {
    set k | k in c.world.frozen.committed && c.world.frozen.committed[k].refundHeight <= c.height + 1
  }

  ghost predicate CanFinish(c: Chain)
  {
    forall k | k in c.world.frozen.committed :: c.world.frozen.committed[k].power >= 0
  }

  ghost function Finish(c: Chain, b: Block): Chain
    requires CanFinish(c)
  {
    CommitBlock(EndBlock(c, b).0, b)
  }

  /** Every owner has been paid all their stakes that were committed as frozen and are due, and nothing else of an account has changed. */
  ghost predicate PaidOut(before: Book, after: Book, f: map<Hash, Stake>, h: int)
  {
    && after.Keys == before.Keys
    && forall a | a in before ::
         && after[a] == before[a].(balance := after[a].balance)
         && after[a].balance == before[a].balance + AMOUNT_PER_POWER * SumMap(DueTo(a, h), f)
  }

  lemma AllKeysPaid(before: Book, after: Book, f: map<Hash, Stake>, ks: seq<Hash>, h: int)
    requires Enumerates(ks, f.Keys) && Paid(before, after, f, ks, h)
    ensures PaidOut(before, after, f, h)
  {
    forall a | a in before ensures SumKeys(DueTo(a, h), f, ks) == SumMap(DueTo(a, h), f) {
      SumKeysSplit(DueTo(a, h), f, ks);
      assert f - (set k | k in ks) == map[];
    }
  }

  lemma DueIsRefunded(c: Chain, ks: seq<Hash>)
    requires Enumerates(ks, c.world.frozen.committed.Keys)
    ensures DueAt(c.world.frozen.committed, ks, c.height + 1) == Refunded(c)
  {
  }

  lemma EndBlockSteps(c: Chain, b: Block) returns (paid: Chain, ks: seq<Hash>)
    requires CanFinish(c)
    ensures paid == PayProposer(c, b.proposer) && paid.world.frozen == c.world.frozen && Enumerates(ks, c.world.frozen.committed.Keys)
    ensures var (w, ok) := Unfreeze(paid.world, ks, c.height + 1);
            EndBlock(c, b) == (paid.(world := w, books := paid.books.(collided := paid.books.collided + Misrefunded(c.world.frozen, ks, c.height + 1))), ok)
  {
    paid := PayProposer(c, b.proposer);
    ks := AnyOrder(c.world.frozen.committed.Keys);
    AnyOrderLists(c.world.frozen.committed.Keys);
  }

  lemma FinishTallies(c: Chain, b: Block) returns (ks: seq<Hash>)
    requires CanFinish(c)
    ensures Enumerates(ks, c.world.frozen.committed.Keys)
    ensures Finish(c, b).books.collided == c.books.collided + Misrefunded(c.world.frozen, ks, c.height + 1)
  {
    var paid;
    paid, ks := EndBlockSteps(c, b);
  }

  lemma EndBlockIs(c: Chain, b: Block) returns (paid: Chain, r: World, ks: seq<Hash>, d: Chain)
    requires ChainInv(c) && Total(c) < MAX_SUPPLY && CanFinish(c)
    ensures paid == PayProposer(c, b.proposer) && EndBlock(c, b) == (d, true)
    ensures Enumerates(ks, c.world.frozen.committed.Keys) && paid.world.frozen == c.world.frozen
    ensures d == paid.(world := r, books := paid.books.(collided := paid.books.collided + Misrefunded(c.world.frozen, ks, c.height + 1)))
    ensures Unfrozen(paid.world, r, ks, c.height + 1)
  {
    paid, ks := EndBlockSteps(c, b);
    PayProposerLaw(c, b.proposer);
    r := UnfreezeRefunds(paid.world, ks, c.height + 1, Taken(c));
    d := EndBlock(c, b).0;
  }

  lemma {:induction false} LessPower(f: map<Hash, Stake>, gone: set<Hash>)
    requires forall k | k in f :: f[k].power >= 0
    ensures SumMap(Power, f - gone) <= SumMap(Power, f)
    decreases gone
  {
    if gone == {} {
      assert f - gone == f;
    } else {
      var k :| k in gone;
      LessPower(f - {k}, gone - {k});
      assert f - {k} - (gone - {k}) == f - gone;
      SumMapRemove(Power, f, k);
    }
  }

  lemma CommitKeepsGood(w: World, r: World, ks: seq<Hash>, h: int, used: set<Hash>)
    requires Good(w, used) && Supply(w) < MAX_SUPPLY && (forall k | k in ks :: k in w.frozen.committed) && Unfrozen(w, r, ks, h)
    ensures Good(CommitWorld(r), used) && Supply(CommitWorld(r)) == Supply(r)
    ensures AccountsGrow(w.accounts, r.accounts)
  {
    PartsWithinSupply(w, used);
    LessPower(w.frozen.working, DueAt(w.frozen.committed, ks, h));
  }

  lemma HeldIsSound(w: World, used: set<Hash>)
    requires Good(w, used)
    ensures AllSound(w.delegatees.working)
  {
  }

  /** What the end of a block does besides the accounting: who is paid, what is committed. */
  ghost predicate Finished(c: Chain, b: Block, d: Chain)
  {
    && d.height == c.height + 1 && d.used == c.used && d.params == b.nextParams
    && d.history == c.history + [d.world.delegatees.committed]
    && d.world.delegatees == c.world.delegatees.Commit()
    && d.world.frozen == Fresh(c.world.frozen.working - Refunded(c))
    && PaidOut(PayProposer(c, b.proposer).world.accounts, d.world.accounts, c.world.frozen.committed, c.height + 1)
    && d.books.genesisFrozen == c.books.genesisFrozen
  }

  lemma FinishPays(c: Chain, b: Block)
    requires ChainInv(c) && Total(c) < MAX_SUPPLY && CanFinish(c)
    ensures EndBlock(c, b).1 && Finished(c, b, Finish(c, b))
  {
    var paid, r, ks, d := EndBlockIs(c, b);
    PayProposerLaw(c, b.proposer);
    DueIsRefunded(c, ks);
    AllKeysPaid(paid.world.accounts, r.accounts, c.world.frozen.committed, ks, c.height + 1);
  }

  lemma FinishAccounts(c: Chain, b: Block)
    requires ChainInv(c) && Total(c) < MAX_SUPPLY && CanFinish(c)
    ensures ChainInv(Finish(c, b)) && SameAccounting(c, Finish(c, b)) && Finish(c, b).fees == 0
  {
    var paid, r, ks, d := EndBlockIs(c, b);
    PayProposerLaw(c, b.proposer);
    CommitKeepsGood(paid.world, r, ks, c.height + 1, Taken(c));
    HeldIsSound(paid.world, Taken(c));
    NoncesKept(paid, Finish(c, b));
  }

  /**
   EndBlock and Commit: the proposer gets the fees and every owner of a committed frozen stake that is due its power in
   coins, the due stakes are gone, all others are committed, and coins are accounted for.
   */
  lemma FinishLaw(c: Chain, b: Block)
    requires ChainInv(c) && Total(c) < MAX_SUPPLY && CanFinish(c)
    ensures EndBlock(c, b).1 && Finished(c, b, Finish(c, b))
    ensures ChainInv(Finish(c, b)) && SameAccounting(c, Finish(c, b)) && Finish(c, b).fees == 0
  {
    FinishPays(c, b);
    FinishAccounts(c, b);
  }

  // ----- Runs -----

  /** The chain before the end of the block: BeginBlock and all deliveries. */
  ghost function Delivered(c: Chain, b: Block): (d: Chain)
    requires ChainInv(c) && BlockOk(c, b)
    ensures ChainInv(d) && SameAccounting(c, d) && Total(d) < MAX_SUPPLY && d.height == c.height && CanFinish(d)
    ensures UsedBy(c.used, d.used, b.txs)
  {
    BeginBlockLaw(c, b);
    DeliverAllLaw(BeginBlock(c, b), b.txs);
    DeliverAll(BeginBlock(c, b), b.txs)
  }

  ghost function RunBlock(c: Chain, b: Block): (d: Chain)
    requires ChainInv(c) && BlockOk(c, b)
    ensures ChainInv(d) && SameAccounting(c, d) && d.height == c.height + 1 && d.fees == 0
  {
    FinishLaw(Delivered(c, b), b);
    Finish(Delivered(c, b), b)
  }

  /** d is the chain after block b. The invariant, which every block keeps, is what makes RunBlock defined. */
  ghost predicate Follows(c: Chain, b: Block, d: Chain)
  {
    ChainInv(c) && BlockOk(c, b) && d == RunBlock(c, b)
  }

  /** cs are the chains before, between and after the blocks bs. */
  ghost predicate IsTrace(cs: seq<Chain>, bs: seq<Block>)
  {
    |cs| == |bs| + 1 && forall i | 0 <= i < |bs| :: Follows(cs[i], bs[i], cs[i + 1])
  }

  /** A run from the chain that InitChain makes. */
  ghost predicate IsRun(holders: seq<Holder>, vals: seq<GenesisValidator>, p: GovParams, cs: seq<Chain>, bs: seq<Block>)
  {
    PowersOk(vals) && IsTrace(cs, bs) && cs[0] == InitChain(holders, vals, p)
  }

  /** What one block keeps. */
  ghost predicate Kept(c: Chain, d: Chain)
  {
    ChainInv(d) && SameAccounting(c, d) && d.height == c.height + 1 && d.fees == 0
  }

  ghost predicate AllKept(cs: seq<Chain>)
  {
    forall i | 0 <= i < |cs| - 1 :: Kept(cs[i], cs[i + 1])
  }

  lemma TraceIsKept(cs: seq<Chain>, bs: seq<Block>)
    requires IsTrace(cs, bs)
    ensures AllKept(cs)
  {
    forall i | 0 <= i < |cs| - 1 ensures Kept(cs[i], cs[i + 1]) { assert Follows(cs[i], bs[i], cs[i + 1]); }
  }

  lemma {:induction false} AccountsKept(cs: seq<Chain>, i: nat)
    requires AllKept(cs) && i < |cs| && ChainInv(cs[0]) && cs[0].fees == 0
    ensures ChainInv(cs[i]) && SameAccounting(cs[0], cs[i]) && cs[i].height == cs[0].height + i && cs[i].fees == 0
  {
    if i > 0 {
      AccountsKept(cs, i - 1);
      assert Kept(cs[i - 1], cs[i]);
    }
  }

  lemma CoinsFromEmptyBooks(c: Chain, d: Chain)
    requires SameAccounting(c, d) && c.books == Books(0, 0, 0, 0, 0, 0, []) && c.fees == 0 && d.fees == 0
    ensures Supply(d.world) == Supply(c.world) + d.books.issued - AMOUNT_PER_POWER * Gone(d.books) - d.books.unpaidFees
  {
  }

  lemma RewardsFromEmptyBooks(c: Chain, d: Chain)
    requires SameAccounting(c, d) && c.books == Books(0, 0, 0, 0, 0, 0, []) && c.world.rewards.working == map[]
    ensures SumMap(Cumulated, d.world.rewards.working) == d.books.issued - d.books.withdrawn
  {
  }

  /** The first chain of a run. */
  ghost predicate Begun(c: Chain, holders: seq<Holder>, vals: seq<GenesisValidator>)
  {
    && ChainInv(c) && c.world == InitWorld(holders, vals) && c.world.rewards.working == map[]
    && c.height == 0 && c.fees == 0 && c.history == [] && c.books == Books(0, 0, 0, 0, 0, 0, [])
  }

  lemma RunBegins(holders: seq<Holder>, vals: seq<GenesisValidator>, p: GovParams, cs: seq<Chain>, bs: seq<Block>)
    requires IsRun(holders, vals, p, cs, bs)
    ensures Begun(cs[0], holders, vals) && AllKept(cs)
  {
    var c := InitChainIsInv(holders, vals, p);
    TraceIsKept(cs, bs);
  }

  lemma BegunIsAccountedFor(cs: seq<Chain>, c: Chain, d: Chain, holders: seq<Holder>, vals: seq<GenesisValidator>)
    requires AllKept(cs) && cs != [] && c == cs[0] && d == cs[|cs| - 1] && Begun(c, holders, vals)
    ensures ChainInv(d) && Supply(d.world) == Supply(c.world) + d.books.issued - AMOUNT_PER_POWER * Gone(d.books) - d.books.unpaidFees
    ensures SumMap(Cumulated, d.world.rewards.working) == d.books.issued - d.books.withdrawn
  {
    AccountsKept(cs, |cs| - 1);
    CoinsFromEmptyBooks(c, d);
    RewardsFromEmptyBooks(c, d);
  }

  /**
   Over every run from genesis: balances, active and frozen stakes and rewards together are what genesis had, plus
   what was issued, minus the power that slashes destroyed, the power that a second staking on a re-made delegatee
   overwrote, the power lost by freezing genesis stakes under their common hash, and the fees of blocks without a
   proposer. The rewards to be had are what was issued minus what was withdrawn. No nonce of a sender is executed twice.
   */
  lemma CoinsAreAccountedFor(holders: seq<Holder>, vals: seq<GenesisValidator>, p: GovParams, cs: seq<Chain>, bs: seq<Block>, d: Chain)
    requires IsRun(holders, vals, p, cs, bs) && d == cs[|bs|]
    ensures Supply(d.world) == Supply(InitWorld(holders, vals)) + d.books.issued - AMOUNT_PER_POWER * Gone(d.books) - d.books.unpaidFees
    ensures SumMap(Cumulated, d.world.rewards.working) == d.books.issued - d.books.withdrawn
    ensures Distinct(d.executed)
  {
    RunBegins(holders, vals, p, cs, bs);
    BegunIsAccountedFor(cs, cs[0], d, holders, vals);
  }
}
