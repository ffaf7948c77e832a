/**
 All genesis stakes have the same hash, so that the frozen ledger has one place for all of them. What that costs: the
 power lost by freezing a genesis stake while another one is frozen, over every run from genesis.
 */
module Collisions {
  import opened Prelude
  import opened Overlays
  import opened Delegatees
  import opened GovernanceParams
  import opened Staking
  import opened Conservation
  import opened Chains
  import opened ChainLaws
  import opened Genesis
  import opened ChainRuns
  import opened StakeLives
  import opened StakeReturns

  // ----- Lists of powers -----

  function Sum(powers: seq<int>): int
  {
    if powers == [] then 0 else Sum(powers[..|powers| - 1]) + powers[|powers| - 1]
  }

  /** What is in the place after these powers have been put there one after the other. */
  function LastOr(power: int, powers: seq<int>): int
  {
    if powers == [] then power else powers[|powers| - 1]
  }

  lemma {:induction false} SumConcat(a: seq<int>, b: seq<int>)
    ensures Sum(a + b) == Sum(a) + Sum(b)
  {
    if b == [] {
      assert a + b == a;
    } else {
      SumConcat(a, b[..|b| - 1]);
      assert (a + b)[..|a + b| - 1] == a + b[..|b| - 1];
    }
  }

  lemma {:induction false} SumIsPositive(powers: seq<int>)
    requires forall x | x in powers :: x >= 0
    ensures Sum(powers) >= 0 && (Sum(powers) == 0 <==> forall x | x in powers :: x == 0)
  {
    if powers != [] {
      var front, last := powers[..|powers| - 1], powers[|powers| - 1];
      assert powers == front + [last] && last in powers;
      assert forall x | x in front :: x in powers;
      SumIsPositive(front);
    }
  }

  // ----- Freezing -----

  /** The power in the one place for genesis stakes. */
  function Slot(f: map<Hash, Stake>): int
  {
    At(Power, f, GENESIS_HASH)
  }

  /** From one frozen ledger to another, with what was overwritten: powers have been put in the place one after the other. */
  ghost predicate SlotTakes(before: int, after: int, clash: int, powers: seq<int>)
  {
    after == LastOr(before, powers) && clash + after == before + Sum(powers) && forall x | x in powers :: x >= 0
  }

  lemma SlotTakesMore(a: int, b: int, c: int, clash: int, further: int, powers: seq<int>, more: seq<int>)
    requires SlotTakes(a, b, clash, powers) && SlotTakes(b, c, further, more)
    ensures SlotTakes(a, c, clash + further, powers + more)
  {
    SumConcat(powers, more);
  }

  lemma TakesOne(before: int, power: int)
    requires power >= 0
    ensures SlotTakes(before, power, before, [power])
  {
    assert [power][..0] == [];
    assert Sum([power]) == Sum([]) + power;
  }

  lemma {:induction false} FreezeTakes(f: Overlay<Hash, Stake>, stakes: seq<Stake>, rh: int)
    requires DistinctHashes(stakes) && forall s | s in stakes :: s.power >= 0 && (s.txHash != GENESIS_HASH ==> s.txHash !in f.working)
    ensures SlotTakes(Slot(f.working), Slot(Freeze(f, stakes, rh).working), Clashed(f, stakes, rh), GenesisPowers(stakes))
  {
    if stakes != [] {
      var front, s := stakes[..|stakes| - 1], stakes[|stakes| - 1];
      assert s in stakes && forall x | x in front :: x in stakes;
      FreezeTakes(f, front, rh);
      var g := Freeze(f, front, rh).working;
      if s.txHash == GENESIS_HASH {
        TakesOne(Slot(g), s.power);
        SlotTakesMore(Slot(f.working), Slot(g), s.power, Clashed(f, front, rh), Slot(g), GenesisPowers(front), [s.power]);
      } else {
        FreezeLeavesOthers(f, front, rh, s.txHash);
        assert GenesisPowers(stakes) == GenesisPowers(front) + [] == GenesisPowers(front);
      }
    }
  }

  // ----- The stages of a block -----

  /** No hash but the one of genesis stands for two stakes. */
  ghost predicate OthersTidy(c: Chain)
  {
    forall k | k != GENESIS_HASH :: Tidy(c, k)
  }

  lemma OthersAdvance(c: Chain, d: Chain)
    requires OthersTidy(c) && forall k :: Advances(c, d, k)
    ensures OthersTidy(d)
  {
    forall k | k != GENESIS_HASH ensures Tidy(d, k) { assert Advances(c, d, k); }
  }

  /** From c to d these genesis stakes have been frozen. */
  ghost predicate Takes(c: Chain, d: Chain, powers: seq<int>)
  {
    && d.books.genesisFrozen == c.books.genesisFrozen + powers
    && SlotTakes(Slot(c.world.frozen.working), Slot(d.world.frozen.working), d.books.collided - c.books.collided, powers)
  }

  lemma TakesMore(c: Chain, d: Chain, e: Chain, powers: seq<int>, more: seq<int>)
    requires Takes(c, d, powers) && Takes(d, e, more)
    ensures Takes(c, e, powers + more)
  {
    var clash, further := d.books.collided - c.books.collided, e.books.collided - d.books.collided;
    var x, y, z := Slot(c.world.frozen.working), Slot(d.world.frozen.working), Slot(e.world.frozen.working);
    SlotTakesMore(x, y, z, clash, further, powers, more);
    AppendTwice(c.books.genesisFrozen, powers, more);
  }

  lemma AppendTwice(a: seq<int>, b: seq<int>, c: seq<int>)
    ensures (a + b) + c == a + (b + c)
  {
  }

  lemma TakesNothing(c: Chain, d: Chain)
    requires d.world.frozen == c.world.frozen && d.books.collided == c.books.collided && d.books.genesisFrozen == c.books.genesisFrozen
    ensures Takes(c, d, [])
  {
  }

  lemma FreezingTakes(c: Chain, d: Chain, stakes: seq<Stake>, rh: int, a: Address)
    requires OthersTidy(c) && a in c.world.delegatees.working && DistinctHashes(stakes)
    requires forall s | s in stakes :: s in c.world.delegatees.working[a].stakes && s.power >= 0
    requires d.world.frozen == Freeze(c.world.frozen, stakes, rh)
    requires d.books.collided == c.books.collided + Clashed(c.world.frozen, stakes, rh)
    requires d.books.genesisFrozen == c.books.genesisFrozen + GenesisPowers(stakes)
    ensures Takes(c, d, GenesisPowers(stakes))
  {
    forall s | s in stakes && s.txHash != GENESIS_HASH ensures s.txHash !in c.world.frozen.working {
      assert HeldBy(c.world, a, s.txHash) && Tidy(c, s.txHash);
    }
    FreezeTakes(c.world.frozen, stakes, rh);
  }

  lemma EvidenceTakes(c: Chain, evidence: seq<Address>)
    ensures Takes(c, AfterEvidence(c, evidence), [])
  {
    PunishAllKeepsFrozen(c.world, evidence, c.params.slashRatio);
  }

  lemma {:induction false} PunishAllKeepsFrozen(w: World, evidence: seq<Address>, ratio: int)
    ensures PunishAll(w, evidence, ratio).frozen == w.frozen
  {
    if evidence != [] { PunishAllKeepsFrozen(w, evidence[..|evidence| - 1], ratio); }
  }

  lemma StopFreezesAll(w: World, v: VoteInfo, immutable: map<Address, Delegatee>, h: int, p: GovParams, stakes: seq<Stake>) returns (r: World)
    requires RewardsUpTo(w.rewards, h) && AllSound(immutable) && stakes == FrozenByVote(w, v, h, p) != []
    ensures r == ProcessVote(w, v, immutable, h, p) && r.frozen == Freeze(w.frozen, stakes, h + p.lazyRewardBlocks)
    ensures v.addr in w.delegatees.working && stakes == w.delegatees.working[v.addr].stakes
  {
    r := ProcessVote(w, v, immutable, h, p);
  }

  lemma StopIsTallied(b: Books, w: World, v: VoteInfo, immutable: map<Address, Delegatee>, h: int, p: GovParams, stakes: seq<Stake>)
    returns (t: Books)
    requires stakes == FrozenByVote(w, v, h, p)
    ensures t == VoteBooks(b, w, v, immutable, h, p)
    ensures t.collided == b.collided + Clashed(w.frozen, stakes, h + p.lazyRewardBlocks)
    ensures t.genesisFrozen == b.genesisFrozen + GenesisPowers(stakes)
  {
    t := VoteBooks(b, w, v, immutable, h, p);
  }

  lemma StopIs(c: Chain, v: VoteInfo, immutable: map<Address, Delegatee>, h: int, p: GovParams, stakes: seq<Stake>) returns (d: Chain, rh: int)
    requires RewardsUpTo(c.world.rewards, h) && AllSound(immutable) && stakes == FrozenByVote(c.world, v, h, p) != []
    ensures d == AfterVote(c, v, immutable, h, p) && d.world.frozen == Freeze(c.world.frozen, stakes, rh)
    ensures d.books.collided == c.books.collided + Clashed(c.world.frozen, stakes, rh)
    ensures d.books.genesisFrozen == c.books.genesisFrozen + GenesisPowers(stakes)
    ensures v.addr in c.world.delegatees.working && stakes == c.world.delegatees.working[v.addr].stakes
  {
    var r := StopFreezesAll(c.world, v, immutable, h, p, stakes);
    var t := StopIsTallied(c.books, c.world, v, immutable, h, p, stakes);
    d, rh := c.(world := r, books := t), h + p.lazyRewardBlocks;
  }

  lemma VoteTakes(c: Chain, v: VoteInfo, immutable: map<Address, Delegatee>, h: int, p: GovParams) returns (d: Chain, powers: seq<int>)
    requires OthersTidy(c) && RewardsUpTo(c.world.rewards, h) && AllSound(immutable) && AllSound(c.world.delegatees.working)
    ensures d == AfterVote(c, v, immutable, h, p) && Takes(c, d, powers)
  {
    if FrozenByVote(c.world, v, h, p) == [] {
      d, powers := AfterVote(c, v, immutable, h, p), [];
      NoStop(c, v, immutable, h, p);
      TakesNothing(c, d);
    } else {
      var stakes, rh := FrozenByVote(c.world, v, h, p), 0;
      d, rh := StopIs(c, v, immutable, h, p, stakes);
      powers := GenesisPowers(stakes);
      FreezingTakes(c, d, stakes, rh, v.addr);
    }
  }

  lemma NoStop(c: Chain, v: VoteInfo, immutable: map<Address, Delegatee>, h: int, p: GovParams)
    requires RewardsUpTo(c.world.rewards, h) && AllSound(immutable) && FrozenByVote(c.world, v, h, p) == []
    ensures var d := AfterVote(c, v, immutable, h, p);
            d.world.frozen == c.world.frozen && d.books.collided == c.books.collided && d.books.genesisFrozen == c.books.genesisFrozen
  {
  }

  lemma {:induction false} VotesTake(c: Chain, votes: seq<VoteInfo>, immutable: map<Address, Delegatee>, h: int, p: GovParams, issue: int)
    returns (d: Chain, powers: seq<int>)
    requires h == c.height + 1 && p == c.params && ChainInv(c) && OthersTidy(c) && AllSound(immutable)
    requires issue == IssuedBy(votes, immutable, p.rewardPerPower) && Total(c) + issue < MAX_SUPPLY
    ensures d == AfterVotes(c, votes, immutable, h, p) && OthersTidy(d) && Takes(c, d, powers)
  {
    d, powers := c, [];
    if votes == [] {
      TakesNothing(c, d);
    } else {
      var front, v := votes[..|votes| - 1], votes[|votes| - 1];
      RewardedIssue(immutable, v, p.rewardPerPower);
      var before := IssuedBy(front, immutable, p.rewardPerPower);
      var m, first := VotesTake(c, front, immutable, h, p, before);
      var m' := VotesLaw(c, front, immutable, h, p, before);
      HeldIsSound(m.world, Taken(m));
      var more;
      d, more := VoteTakes(m, v, immutable, h, p);
      powers := first + more;
      TakesMore(c, m, d, first, more);
      forall k ensures Advances(m, d, k) { var d' := VoteAdvances(m, v, immutable, h, p, k); }
      OthersAdvance(m, d);
    }
  }

  // ----- Transactions -----

  lemma UnstakedIsDistinct(d: Delegatee, k: Hash)
    requires Sound(d) && FindStake(d.stakes, k) >= 0
    ensures DistinctHashes(UnstakedWith(d, k)) && forall s | s in UnstakedWith(d, k) :: s in d.stakes && s.power >= 0
  {
    var left := WithoutStake(d, k);
    DelStakeKeepsSound(d, k);
    RemoveByHashRemovesOne(d.stakes, k);
    assert forall x | x in left.stakes :: x.txHash in Hashes(left.stakes);
  }

  lemma UnstakeIsFreeze(w: World, from: Address, to: Address, k: Hash, rh: int) returns (stakes: seq<Stake>)
    requires AllSound(w.delegatees.working) && CanUnstake(w, from, to, k)
    ensures stakes == UnstakedWith(w.delegatees.working[to], k) && Unstaked(w, to, k, rh).frozen == Freeze(w.frozen, stakes, rh)
  {
    var d := w.delegatees.working[to];
    var s, left := d.stakes[FindStake(d.stakes, k)], WithoutStake(d, k);
    var rest := if left.selfPower == 0 then left.stakes else [];
    stakes := UnstakedWith(d, k);
    FreezeCons(w.frozen, s, rest, rh);
  }

  lemma UnstakeIsTallied(b: Books, w: World, tx: Tx, rh: int, stakes: seq<Stake>)
    requires tx.kind.TrxUnstaking? && CanUnstake(w, tx.from, tx.to, tx.kind.stakeHash)
    requires stakes == UnstakedWith(w.delegatees.working[tx.to], tx.kind.stakeHash)
    ensures var t := Tally(b, w, tx, rh);
            t.collided == b.collided + Clashed(w.frozen, stakes, rh) && t.genesisFrozen == b.genesisFrozen + GenesisPowers(stakes)
  {
  }

  lemma OthersTallyNoFreeze(b: Books, w: World, tx: Tx, rh: int)
    requires !tx.kind.TrxUnstaking?
    ensures Tally(b, w, tx, rh).collided == b.collided && Tally(b, w, tx, rh).genesisFrozen == b.genesisFrozen
  {
  }

  lemma OthersDoNotFreeze(w: World, tx: Tx, h: int, p: GovParams)
    requires RewardsUpTo(w.rewards, h) && tx.from in w.accounts && tx.to in w.accounts && !tx.kind.TrxUnstaking?
    ensures Execute(w, tx, h, p).0.frozen == w.frozen
  {
  }

  /** A validated transaction that is carried out from w to r. */
  lemma CarriedOutTakes(c: Chain, w: World, tx: Tx, r: World, d: Chain, rh: int) returns (powers: seq<int>)
    requires ChainInv(c) && OthersTidy(c) && w == Receiving(c, tx) && tx.from in w.accounts && tx.to in w.accounts
    requires ValidByKind(w, tx, c.params) && rh == c.height + 1 + c.params.lazyRewardBlocks
    requires RewardsUpTo(w.rewards, c.height + 1) && Execute(w, tx, c.height + 1, c.params) == (r, true)
    requires d.world.frozen == r.frozen && d.books == Tally(c.books, w, tx, rh)
    ensures Takes(c, d, powers)
  {
    if tx.kind.TrxUnstaking? {
      HeldIsSound(c.world, Taken(c));
      ExecuteIsUnstaking(w, tx, c.height + 1, c.params, rh);
      var stakes := UnstakeIsFreeze(w, tx.from, tx.to, tx.kind.stakeHash, rh);
      UnstakedIsDistinct(w.delegatees.working[tx.to], tx.kind.stakeHash);
      UnstakeIsTallied(c.books, w, tx, rh, stakes);
      powers := GenesisPowers(stakes);
      FreezingTakes(c, d, stakes, rh, tx.to);
    } else {
      powers := [];
      OthersTallyNoFreeze(c.books, w, tx, rh);
      OthersDoNotFreeze(w, tx, c.height + 1, c.params);
      TakesNothing(c, d);
    }
  }

  lemma DeliverTakes(c: Chain, tx: Tx) returns (d: Chain, powers: seq<int>)
    requires ChainInv(c) && ParamsOk(c.params) && Total(c) < MAX_SUPPLY && NoCollision(c.used, tx) && OthersTidy(c)
    ensures d == Deliver(c, tx).0 && Takes(c, d, powers)
  {
    if tx.from in c.world.accounts && Validate(Receiving(c, tx), tx, c.params) {
      var w := Receiving(c, tx);
      var r := ValidatedRuns(c, tx);
      DeliverIsCharge(c, tx, r);
      ReceivingKeeps(c, tx);
      d := Charged(c, w, r, tx, Fee(tx));
      powers := CarriedOutTakes(c, w, tx, r, d, RefundAt(c));
    } else {
      d, powers := Deliver(c, tx).0, [];
      TakesNothing(c, d);
    }
  }

  lemma {:induction false} DeliveriesTake(c: Chain, txs: seq<Tx>) returns (d: Chain, powers: seq<int>)
    requires CanDeliver(c, txs) && OthersTidy(c)
    ensures d == DeliverAll(c, txs) && OthersTidy(d) && Takes(c, d, powers)
  {
    d, powers := c, [];
    if txs == [] {
      TakesNothing(c, d);
    } else {
      var tx := txs[|txs| - 1];
      var m' := FrontCanDeliver(c, txs);
      var m, first := DeliveriesTake(c, txs[..|txs| - 1]);
      var more;
      d, more := DeliverTakes(m, tx);
      powers := first + more;
      TakesMore(c, m, d, first, more);
      forall k ensures Advances(m, d, k) { var d' := DeliverAdvances(m, tx, k); }
      OthersAdvance(m, d);
    }
  }

  lemma BeginBlockTakes(c: Chain, b: Block) returns (d: Chain, powers: seq<int>)
    requires ChainInv(c) && BlockOk(c, b) && OthersTidy(c)
    ensures d == BeginBlock(c, b) && OthersTidy(d) && Takes(c, d, powers)
  {
    var judged := EvidenceLaw(c, b.evidence);
    EvidenceTakes(c, b.evidence);
    forall k ensures Advances(c, judged, k) { EvidenceAdvances(c, b.evidence, k); }
    OthersAdvance(c, judged);
    d, powers := judged, [];
    var version := RewardVersion(c.history, c.height + 1);
    if version.Some? {
      d, powers := VotesTake(judged, b.votes, version.value, c.height + 1, c.params, IssueOf(c, b));
      TakesMore(c, judged, d, [], powers);
      assert [] + powers == powers;
    }
  }

  /** What a block has put in the place for genesis stakes before its end. */
  lemma DeliveredTakes(c: Chain, b: Block) returns (m: Chain, powers: seq<int>)
    requires ChainInv(c) && BlockOk(c, b) && OthersTidy(c)
    ensures m == Delivered(c, b) && OthersTidy(m) && Takes(c, m, powers)
  {
    var s, first := BeginBlockTakes(c, b);
    BeginBlockLaw(c, b);
    var more;
    m, more := DeliveriesTake(s, b.txs);
    powers := first + more;
    TakesMore(c, s, m, first, more);
  }

  // ----- Blocks -----

  /** What a block loses that puts these powers in the place after another one, which it may refund. */
  function Loss(before: int, powers: seq<int>, refunds: bool): int
  {
    if refunds then Sum(powers) else before + Sum(powers) - LastOr(before, powers)
  }

  predicate HasPower(powers: seq<int>)
  {
    exists x :: x in powers && x > 0
  }

  /**
   A block loses power: it freezes a genesis stake with power although it refunds the one frozen before, or freezes one while
   another one with power is frozen or comes in after it.
   */
  predicate LosesPower(before: int, powers: seq<int>, refunds: bool)
  {
    if refunds then HasPower(powers) else powers != [] && (before > 0 || HasPower(powers[..|powers| - 1]))
  }

  lemma LossIsExact(before: int, powers: seq<int>, refunds: bool)
    requires before >= 0 && forall x | x in powers :: x >= 0
    ensures Loss(before, powers, refunds) >= 0
    ensures Loss(before, powers, refunds) > 0 <==> LosesPower(before, powers, refunds)
  {
    SumIsPositive(powers);
    if powers != [] {
      var front := powers[..|powers| - 1];
      assert forall x | x in front :: x in powers;
      SumIsPositive(front);
    }
  }

  lemma {:induction false} MisrefundedIs(f: Overlay<Hash, Stake>, ks: seq<Hash>, h: int)
    requires Distinct(ks) && forall k | k in ks :: k in f.committed
    requires forall k | k in ks && k != GENESIS_HASH :: k in f.working && f.working[k] == f.committed[k]
    ensures Misrefunded(f, ks, h)
         == if GENESIS_HASH in ks && f.committed[GENESIS_HASH].refundHeight <= h then Slot(f.working) - Slot(f.committed) else 0
  {
    if ks != [] {
      var front, k := ks[..|ks| - 1], ks[|ks| - 1];
      assert ks == front + [k] && k !in front;
      MisrefundedIs(f, front, h);
    }
  }

  /** The genesis stakes that the block between two chains has frozen. */
  function Logged(c: Chain, d: Chain): seq<int>
  {
    if |c.books.genesisFrozen| <= |d.books.genesisFrozen| then d.books.genesisFrozen[|c.books.genesisFrozen|..] else []
  }

  ghost predicate Collides(c: Chain, d: Chain)
  {
    LosesPower(Slot(c.world.frozen.committed), Logged(c, d), GENESIS_HASH in Refunded(c))
  }

  /** What a block does to the place for genesis stakes, and what it loses by that. */
  ghost predicate SlotStep(c: Chain, d: Chain)
  {
    && OthersTidy(d) && d.world.frozen.working == d.world.frozen.committed
    && d.books.collided == c.books.collided + Loss(Slot(c.world.frozen.committed), Logged(c, d), GENESIS_HASH in Refunded(c))
    && d.books.collided >= c.books.collided
    && (d.books.collided > c.books.collided <==> Collides(c, d))
  }

  lemma FinishMisrefunds(m: Chain, b: Block) returns (d: Chain)
    requires ChainInv(m) && Total(m) < MAX_SUPPLY && CanFinish(m) && OthersTidy(m)
    ensures d == Finish(m, b) && Finished(m, b, d)
    ensures d.books.collided == m.books.collided
              + if GENESIS_HASH in Refunded(m) then Slot(m.world.frozen.working) - Slot(m.world.frozen.committed) else 0
  {
    FinishLaw(m, b);
    d := Finish(m, b);
    var ks := FinishTallies(m, b);
    forall k | k in ks && k != GENESIS_HASH
      ensures k in m.world.frozen.working && m.world.frozen.working[k] == m.world.frozen.committed[k] { assert Tidy(m, k); }
    MisrefundedIs(m.world.frozen, ks, m.height + 1);
  }

  lemma PrefixDropped(a: seq<int>, b: seq<int>)
    ensures (a + b)[|a|..] == b
  {
  }

  /** c before the block, m before its end, d after it. */
  lemma LossAccounts(c: Chain, m: Chain, d: Chain, powers: seq<int>, refunds: bool)
    requires Takes(c, m, powers) && refunds == (GENESIS_HASH in Refunded(c)) && Slot(c.world.frozen.working) == Slot(c.world.frozen.committed) >= 0
    requires d.books.collided == m.books.collided + if refunds then Slot(m.world.frozen.working) - Slot(c.world.frozen.committed) else 0
    requires d.books.genesisFrozen == m.books.genesisFrozen
    ensures d.books.collided == c.books.collided + Loss(Slot(c.world.frozen.committed), Logged(c, d), refunds)
    ensures d.books.collided >= c.books.collided && (d.books.collided > c.books.collided <==> Collides(c, d))
  {
    PrefixDropped(c.books.genesisFrozen, powers);
    LossIsExact(Slot(c.world.frozen.committed), powers, refunds);
  }

  lemma BlockSlots(c: Chain, b: Block)
    requires ChainInv(c) && BlockOk(c, b) && OthersTidy(c) && c.world.frozen.working == c.world.frozen.committed
    ensures SlotStep(c, RunBlock(c, b))
  {
    var m, powers := DeliveredTakes(c, b);
    var d := FinishMisrefunds(m, b);
    DeliveredAdvances(c, b, GENESIS_HASH);
    assert Refunded(m) == Refunded(c);
    forall k | k != GENESIS_HASH ensures Tidy(d, k) { assert Tidy(m, k); FinishTidies(m, b, d, k); }
    SlotIsNonNegative(c);
    LossAccounts(c, m, d, powers, GENESIS_HASH in Refunded(c));
  }

  lemma SlotIsNonNegative(c: Chain)
    requires ChainInv(c)
    ensures Slot(c.world.frozen.committed) >= 0
  {
  }

  // ----- Runs -----

  ghost predicate AllSlots(cs: seq<Chain>)
  {
    forall x | 0 <= x < |cs| - 1 :: OthersTidy(cs[x]) && cs[x].world.frozen.working == cs[x].world.frozen.committed ==> SlotStep(cs[x], cs[x + 1])
  }

  lemma TraceSlots(cs: seq<Chain>, bs: seq<Block>)
    requires IsTrace(cs, bs)
    ensures AllSlots(cs)
  {
    forall x | 0 <= x < |cs| - 1 && OthersTidy(cs[x]) && cs[x].world.frozen.working == cs[x].world.frozen.committed
      ensures SlotStep(cs[x], cs[x + 1])
    {
      assert Follows(cs[x], bs[x], cs[x + 1]);
      BlockSlots(cs[x], bs[x]);
    }
  }

  /** Some block before the n-th chain loses power. */
  ghost predicate CollidesBefore(cs: seq<Chain>, n: nat)
    requires n < |cs|
  {
    exists x :: 0 <= x < n && Collides(cs[x], cs[x + 1])
  }

  lemma {:induction false} SlotsAlong(cs: seq<Chain>, n: nat)
    requires AllSlots(cs) && n < |cs| && OthersTidy(cs[0]) && cs[0].world.frozen.working == cs[0].world.frozen.committed
    ensures OthersTidy(cs[n]) && cs[n].world.frozen.working == cs[n].world.frozen.committed
    ensures cs[n].books.collided >= cs[0].books.collided
    ensures cs[n].books.collided > cs[0].books.collided <==> CollidesBefore(cs, n)
    decreases n
  {
    if n > 0 {
      SlotsAlong(cs, n - 1);
      assert SlotStep(cs[n - 1], cs[n]);
      if Collides(cs[n - 1], cs[n]) {
        assert CollidesBefore(cs, n);
      } else if CollidesBefore(cs, n - 1) {
        var x :| 0 <= x < n - 1 && Collides(cs[x], cs[x + 1]);
        assert CollidesBefore(cs, n);
      }
    }
  }

  lemma GenesisSlots(holders: seq<Holder>, vals: seq<GenesisValidator>, p: GovParams) returns (c: Chain)
    requires PowersOk(vals)
    ensures c == InitChain(holders, vals, p) && OthersTidy(c) && c.world.frozen.working == c.world.frozen.committed && c.books.collided == 0
  {
    c := InitChainIsInv(holders, vals, p);
    forall k | k != GENESIS_HASH ensures Tidy(c, k) { GenesisIsTidy(holders, vals, p, k); }
  }

  /**
   Over every run from genesis: freezing never creates power, and it loses power exactly when some block freezes a genesis
   stake while another one with power is frozen, freezes two that are not all without power but the last, or freezes one
   with power in the block that refunds the one frozen before. Each block loses exactly that power.
   */
  lemma GenesisStakesCollide(holders: seq<Holder>, vals: seq<GenesisValidator>, p: GovParams, cs: seq<Chain>, bs: seq<Block>, n: nat)
    requires IsRun(holders, vals, p, cs, bs) && n <= |bs|
    ensures cs[n].books.collided >= 0
    ensures cs[n].books.collided > 0 <==> CollidesBefore(cs, n)
    ensures n < |bs| ==> SlotStep(cs[n], cs[n + 1])
  {
    var c := GenesisSlots(holders, vals, p);
    TraceSlots(cs, bs);
    SlotsAlong(cs, n);
  }
}
