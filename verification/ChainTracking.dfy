/** What every run of the chain means for the validators: their marked heights and the consensus engine's view of them. */
module ChainTracking {
  import opened Prelude
  import opened Overlays
  import opened Delegatees
  import opened BlockMarkers
  import opened GovernanceParams
  import opened Chains
  import opened ChainLaws
  import opened Genesis
  import opened ChainRuns
  import opened Markers
  import opened DelegateeKeys
  import V = Validators

  // ----- Between blocks -----

  /** The pending delegatees have their marked heights in order and the keys of their addresses. */
  ghost predicate InOrder(addrOf: V.AddrOf, c: Chain)
  {
    Marked(c.world.delegatees.working) && Keyed(addrOf, c.world.delegatees.working)
  }

  /** Between blocks: the invariant of the chain, nothing pending in the delegatees, and all of them in order. */
  ghost predicate Settled(addrOf: V.AddrOf, c: Chain)
  {
    ChainInv(c) && c.world.delegatees == Fresh(c.world.delegatees.committed) && InOrder(addrOf, c)
  }

  ghost predicate IsSigned(addrOf: V.AddrOf, b: Block)
  {
    forall tx | tx in b.txs :: SignedBySender(addrOf, tx)
  }

  /** A block settles what was pending before it, as everything is before the first block. */
  lemma BlockSettles(addrOf: V.AddrOf, c: Chain, b: Block)
    requires ChainInv(c) && BlockOk(c, b) && InOrder(addrOf, c) && IsSigned(addrOf, b)
    ensures Settled(addrOf, RunBlock(c, b))
  {
    BlockKeepsMarked(c, b);
    BlockKeepsKeyed(addrOf, c, b);
    FinishLaw(Delivered(c, b), b);
  }

  ghost predicate AllSettle(addrOf: V.AddrOf, cs: seq<Chain>)
  {
    forall i | 0 <= i < |cs| - 1 :: InOrder(addrOf, cs[i]) ==> Settled(addrOf, cs[i + 1])
  }

  ghost predicate AllSigned(addrOf: V.AddrOf, bs: seq<Block>)
  {
    forall i | 0 <= i < |bs| :: IsSigned(addrOf, bs[i])
  }

  lemma TraceSettles(addrOf: V.AddrOf, cs: seq<Chain>, bs: seq<Block>)
    requires IsTrace(cs, bs) && AllSigned(addrOf, bs)
    ensures AllSettle(addrOf, cs)
  {
    forall i | 0 <= i < |cs| - 1 && InOrder(addrOf, cs[i]) ensures Settled(addrOf, cs[i + 1]) {
      assert Follows(cs[i], bs[i], cs[i + 1]);
      BlockSettles(addrOf, cs[i], bs[i]);
    }
  }

  lemma {:induction false} SettledAt(addrOf: V.AddrOf, cs: seq<Chain>, i: nat)
    requires AllSettle(addrOf, cs) && 1 <= i < |cs| && InOrder(addrOf, cs[0])
    ensures Settled(addrOf, cs[i])
  {
    if i > 1 { SettledAt(addrOf, cs, i - 1); }
  }

  /** The keys of the genesis validators are those of their addresses. */
  ghost predicate GenesisKeyed(addrOf: V.AddrOf, vals: seq<GenesisValidator>)
  {
    forall v | v in vals :: addrOf(v.pubKey) == v.addr
  }

  lemma GenesisIsInOrder(addrOf: V.AddrOf, holders: seq<Holder>, vals: seq<GenesisValidator>, p: GovParams)
    requires PowersOk(vals) && GenesisKeyed(addrOf, vals)
    ensures InOrder(addrOf, InitChain(holders, vals, p)) && InitChain(holders, vals, p).world.delegatees.committed == map[]
  {
    var ds := InitDelegatees(Fresh(map[]), vals).working;
    InitDelegateesHold(HolderAccounts(map[], holders), vals);
    forall a | a in ds ensures Increasing(ds[a].notSignedHeights) && addrOf(ds[a].pubKey) == ds[a].addr {
      var v :| v in vals && v.addr == a && ds[a] == GenesisDelegatee(v);
    }
  }

  /** Every chain of a run from genesis is settled after its first block; at genesis nothing is committed. */
  lemma TraceIsSettled(addrOf: V.AddrOf, holders: seq<Holder>, vals: seq<GenesisValidator>, p: GovParams, cs: seq<Chain>, bs: seq<Block>, i: nat)
    requires IsRun(holders, vals, p, cs, bs) && GenesisKeyed(addrOf, vals) && AllSigned(addrOf, bs) && i < |cs|
    ensures i == 0 ==> cs[0].world.delegatees.committed == map[]
    ensures i > 0 ==> Settled(addrOf, cs[i])
  {
    GenesisIsInOrder(addrOf, holders, vals, p);
    TraceSettles(addrOf, cs, bs);
    if i > 0 { SettledAt(addrOf, cs, i); }
  }

  // ----- The consensus engine -----

  /** The delegatees that a block collects from the chain before it, with the parameters then in force. */
  datatype Collected = Collected(ds: seq<Delegatee>, minPower: int, maxVals: nat)

  ghost predicate CollectedFrom(c: Chain, x: Collected)
  {
    x.minPower >= 1 && V.Eligible(x.ds, c.world.delegatees.committed, x.minPower)
  }

  function RoundOf(x: Collected): V.Round
  {
    V.Round(Sort(V.PowerLess, x.ds), x.maxVals)
  }

  function RoundsOf(xs: seq<Collected>): seq<V.Round>
  {
    if xs == [] then [] else RoundsOf(xs[..|xs| - 1]) + [RoundOf(xs[|xs| - 1])]
  }

  ghost predicate CommittedOk(addrOf: V.AddrOf, committed: map<Address, Delegatee>)
  {
    forall a | a in committed :: Sound(committed[a]) && addrOf(committed[a].pubKey) == committed[a].addr
  }

  lemma SettledIsOk(addrOf: V.AddrOf, c: Chain)
    requires Settled(addrOf, c)
    ensures CommittedOk(addrOf, c.world.delegatees.committed)
  {
  }

  ghost predicate GoodRound(addrOf: V.AddrOf, r: V.Round)
  {
    V.GoodList(addrOf, r.all) && Sorted(V.PowerLess, r.all)
  }

  lemma CollectedIsGood(addrOf: V.AddrOf, c: Chain, x: Collected)
    requires CommittedOk(addrOf, c.world.delegatees.committed) && CollectedFrom(c, x)
    ensures GoodRound(addrOf, RoundOf(x))
  {
    V.EligibleIsGood(addrOf, x.ds, c.world.delegatees.committed, x.minPower);
    V.SortByPower(x.ds);
  }

  lemma {:induction false} RoundsAreGood(addrOf: V.AddrOf, xs: seq<Collected>)
    requires forall i | 0 <= i < |xs| :: GoodRound(addrOf, RoundOf(xs[i]))
    ensures forall r | r in RoundsOf(xs) :: GoodRound(addrOf, r)
  {
    if xs != [] { RoundsAreGood(addrOf, xs[..|xs| - 1]); }
  }

  /** What the consensus engine begins with: InitChain leaves the validators of genesis as they are. */
  function GenesisEngine(vals: seq<GenesisValidator>): V.ValidatorSet
  {
    if vals == [] then map[] else GenesisEngine(vals[..|vals| - 1])[vals[|vals| - 1].addr := vals[|vals| - 1].power]
  }

  lemma RunRoundsAreGood(addrOf: V.AddrOf, holders: seq<Holder>, vals: seq<GenesisValidator>, p: GovParams, cs: seq<Chain>, bs: seq<Block>,
                         xs: seq<Collected>)
    requires IsRun(holders, vals, p, cs, bs) && GenesisKeyed(addrOf, vals) && AllSigned(addrOf, bs) && |xs| <= |bs|
    requires forall i | 0 <= i < |xs| :: CollectedFrom(cs[i], xs[i])
    ensures forall r | r in RoundsOf(xs) :: GoodRound(addrOf, r)
  {
    forall i | 0 <= i < |xs| ensures GoodRound(addrOf, RoundOf(xs[i])) {
      TraceIsSettled(addrOf, holders, vals, p, cs, bs, i);
      if i > 0 { SettledIsOk(addrOf, cs[i]); }
      CollectedIsGood(addrOf, cs[i], xs[i]);
    }
    RoundsAreGood(addrOf, xs);
  }

  /**
   Over every run from genesis, the consensus engine, which begins with the genesis validators and applies each block's
   updates, knows exactly the controller's validators with their powers and the genesis validators that no block has
   selected so far. So it agrees with the controller exactly when each of them has been selected some time.
   */
  lemma ConsensusFollowsChain(addrOf: V.AddrOf, holders: seq<Holder>, vals: seq<GenesisValidator>, p: GovParams, cs: seq<Chain>,
                              bs: seq<Block>, xs: seq<Collected>)
    requires IsRun(holders, vals, p, cs, bs) && GenesisKeyed(addrOf, vals) && AllSigned(addrOf, bs) && |xs| <= |bs|
    requires forall i | 0 <= i < |xs| :: CollectedFrom(cs[i], xs[i])
    ensures var t, rs := V.AdvanceAll(addrOf, V.Tracker([], GenesisEngine(vals)), RoundsOf(xs)), RoundsOf(xs);
            && V.TrackingWith(addrOf, t, V.Leftover(GenesisEngine(vals), rs))
            && (t.consensus == V.PowerMap(t.last) <==>
                forall a | a in GenesisEngine(vals) :: exists r :: r in rs && a in V.Addrs(V.Select(r.all, r.maxVals)))
  {
    RunRoundsAreGood(addrOf, holders, vals, p, cs, bs, xs);
    V.ConsensusFollows(addrOf, GenesisEngine(vals), RoundsOf(xs));
    V.EngineAgreesExactly(addrOf, GenesisEngine(vals), RoundsOf(xs));
  }

  // ----- The delegatees that rewards are computed on -----

  /** Each block appends the delegatees it commits to the history. */
  ghost predicate Recorded(c: Chain, d: Chain)
  {
    d.height == c.height + 1 && d.history == c.history + [d.world.delegatees.committed]
  }

  lemma BlockIsRecorded(c: Chain, b: Block)
    requires ChainInv(c) && BlockOk(c, b)
    ensures Recorded(c, RunBlock(c, b))
  {
    FinishLaw(Delivered(c, b), b);
    DeliveredKeepsHistory(c, b);
  }

  lemma DeliveredKeepsHistory(c: Chain, b: Block)
    requires ChainInv(c) && BlockOk(c, b)
    ensures Delivered(c, b).history == c.history
  {
    BeginBlockLaw(c, b);
  }

  ghost predicate AllRecorded(cs: seq<Chain>)
  {
    forall i | 0 <= i < |cs| - 1 :: Recorded(cs[i], cs[i + 1])
  }

  lemma TraceIsRecorded(cs: seq<Chain>, bs: seq<Block>)
    requires IsTrace(cs, bs)
    ensures AllRecorded(cs)
  {
    forall i | 0 <= i < |cs| - 1 ensures Recorded(cs[i], cs[i + 1]) {
      assert Follows(cs[i], bs[i], cs[i + 1]);
      BlockIsRecorded(cs[i], bs[i]);
    }
  }

  lemma {:induction false} HistoryAt(cs: seq<Chain>, n: nat, v: nat)
    requires AllRecorded(cs) && n < |cs| && cs[0].height == 0 && cs[0].history == [] && 1 <= v <= n
    ensures cs[n].height == n && |cs[n].history| == n && cs[n].history[v - 1] == cs[v].world.delegatees.committed
    decreases n
  {
    assert Recorded(cs[n - 1], cs[n]);
    if v < n {
      HistoryAt(cs, n - 1, v);
    } else if n > 1 {
      HistoryAt(cs, n - 1, 1);
    }
  }

  /** From block 5 on, block h rewards the delegatees as they were committed at block h - 4. */
  lemma RewardsLookFourBlocksBack(holders: seq<Holder>, vals: seq<GenesisValidator>, p: GovParams, cs: seq<Chain>, bs: seq<Block>, h: nat)
    requires IsRun(holders, vals, p, cs, bs) && 5 <= h <= |bs|
    ensures cs[h - 1].height == h - 1 && RewardVersion(cs[h - 1].history, h) == Some(cs[h - 4].world.delegatees.committed)
  {
    TraceIsRecorded(cs, bs);
    VersionIsFourBack(cs, h);
  }

  lemma VersionIsFourBack(cs: seq<Chain>, h: nat)
    requires AllRecorded(cs) && cs != [] && cs[0].height == 0 && cs[0].history == [] && 5 <= h <= |cs|
    ensures cs[h - 1].height == h - 1 && RewardVersion(cs[h - 1].history, h) == Some(cs[h - 4].world.delegatees.committed)
  {
    HistoryAt(cs, h - 1, h - 4);
  }

  /** Before that: block 1 rewards nobody, blocks 2 and 3 look at block 1, and block 4, which asks for version 0, gets block 3. */
  lemma FirstRewardsLookAt(holders: seq<Holder>, vals: seq<GenesisValidator>, p: GovParams, cs: seq<Chain>, bs: seq<Block>, h: nat)
    requires IsRun(holders, vals, p, cs, bs) && 1 <= h <= 4 && h <= |bs|
    ensures RewardVersion(cs[h - 1].history, h) ==
            if h == 1 then None else Some(cs[if h == 4 then 3 else 1].world.delegatees.committed)
  {
    TraceIsRecorded(cs, bs);
    if h > 1 {
      HistoryAt(cs, h - 1, 1);
      HistoryAt(cs, h - 1, h - 1);
    }
  }
}
