/**
 ctrlers/stake/ctrler.go: what the votes and the evidence of a block do to each owner of a stake and to each
 validator: who is rewarded with how much, who is slashed, and when a validator that misses blocks is stopped.
 */
module Votes {
  import opened Prelude
  import opened Overlays
  import opened Amounts
  import opened Delegatees
  import opened BlockMarkers
  import opened Rewards
  import opened GovernanceParams
  import opened Staking
  import opened Conservation
  import opened Chains

  // ----- Rewards, owner by owner -----

  /** The reward entry of an address. */
  function EntryOf(rewards: Overlay<Address, Reward>, a: Address): Option<Reward>
  {
    Lookup(rewards.working, a)
  }

  function CumulatedBy(rewards: Overlay<Address, Reward>, a: Address): int
  {
    At(Cumulated, rewards.working, a)
  }

  /** What was issued to an address at a height. */
  function IssuedAt(rewards: Overlay<Address, Reward>, a: Address, h: int): int
  {
    if a in rewards.working && rewards.working[a].height == h then rewards.working[a].issued else 0
  }

  /** Adding to what an address has does not wrap around. */
  predicate Fits(rewards: Overlay<Address, Reward>, a: Address, h: int, amount: int)
  {
    CumulatedBy(rewards, a) + amount < U256 && IssuedAt(rewards, a, h) + amount < U256
  }

  /** One address earns an amount at a height, and no more. */
  ghost predicate Earns(before: Overlay<Address, Reward>, after: Overlay<Address, Reward>, a: Address, h: int, amount: int)
  {
    && CumulatedBy(after, a) == CumulatedBy(before, a) + amount
    && IssuedAt(after, a, h) == IssuedAt(before, a, h) + amount
  }

  /** The address owns none of the stakes. */
  predicate OwnsNone(stakes: seq<Stake>, a: Address)
  {
    forall s | s in stakes :: s.from != a
  }

  lemma {:induction false} OwnsNoPower(stakes: seq<Stake>, a: Address)
    requires OwnsNone(stakes, a)
    ensures SumPowerOf(stakes, a) == 0
  {
    if stakes != [] { OwnsNoPower(stakes[1..], a); }
  }

  lemma OneIssueEarns(rewards: Overlay<Address, Reward>, owner: Address, amount: nat, h: int, a: Address)
    requires RewardsUpTo(rewards, h)
    requires owner == a ==> Fits(rewards, a, h, amount)
    ensures var r := rewards.Set(owner, Issued(RewardOf(rewards, owner), amount, h));
            && (owner == a ==> Earns(rewards, r, a, h, amount))
            && (owner != a ==> EntryOf(r, a) == EntryOf(rewards, a))
  {
  }

  lemma ProductFits(power: nat, perPower: nat)
    requires perPower * power < U256
    ensures Mul256(power, perPower) == perPower * power
  {
    assert power * perPower == perPower * power;
  }

  lemma OneStakeEarns(rewards: Overlay<Address, Reward>, s: Stake, h: int, perPower: nat, a: Address)
    requires RewardsUpTo(rewards, h) && s.power >= 0 && perPower * s.power >= 0
    requires s.from == a ==> Fits(rewards, a, h, perPower * s.power) && perPower * s.power < U256
    ensures var r := rewards.Set(s.from, Issued(RewardOf(rewards, s.from), Mul256(s.power, perPower), h));
            && (s.from == a ==> Earns(rewards, r, a, h, perPower * s.power))
            && (s.from != a ==> EntryOf(r, a) == EntryOf(rewards, a))
  {
    if s.from == a { ProductFits(s.power, perPower); }
    OneIssueEarns(rewards, s.from, Mul256(s.power, perPower), h, a);
  }

  /** The stakes of a rewarded delegatee earn each owner the same amount per power of their own. */
  lemma {:induction false} StakesEarnTheirOwners(rewards: Overlay<Address, Reward>, stakes: seq<Stake>, h: int, perPower: nat, a: Address)
    requires RewardsUpTo(rewards, h) && forall s | s in stakes :: s.power >= 0
    requires Fits(rewards, a, h, perPower * SumPowerOf(stakes, a))
    ensures Earns(rewards, RewardStakes(rewards, stakes, h, perPower), a, h, perPower * SumPowerOf(stakes, a))
    ensures OwnsNone(stakes, a) ==> EntryOf(RewardStakes(rewards, stakes, h, perPower), a) == EntryOf(rewards, a)
  {
    if stakes != [] {
      var front, s := stakes[..|stakes| - 1], stakes[|stakes| - 1];
      assert stakes == front + [s];
      assert forall x | x in front :: x in stakes;
      SumSeqAppend(PowerFrom(a), front, s);
      EarnedInParts(front, s, perPower, a);
      StakesEarnTheirOwners(rewards, front, h, perPower, a);
      OneStakeEarns(RewardStakes(rewards, front, h, perPower), s, h, perPower, a);
    }
  }

  lemma EarnedInParts(front: seq<Stake>, s: Stake, perPower: nat, a: Address)
    requires s.power >= 0 && forall x | x in front :: x.power >= 0
    ensures perPower * SumPowerOf(front + [s], a)
            == perPower * SumPowerOf(front, a) + if s.from == a then perPower * s.power else 0
    ensures perPower * SumPowerOf(front, a) >= 0 && perPower * s.power >= 0
  {
    SumSeqAppend(PowerFrom(a), front, s);
    SelfWithinTotal(front, a);
    var x := SumPowerOf(front, a);
    assert perPower * (x + s.power) == perPower * x + perPower * s.power;
  }

  /** A vote rewards when it is signed and the version of the delegatees has its validator with the power the vote says. */
  predicate IsRewarding(immutable: map<Address, Delegatee>, v: VoteInfo)
  {
    v.signed && v.addr in immutable && immutable[v.addr].totalPower == v.power
  }

  /** What an address earns by a vote: the amount per power, for its own stakes with the rewarded delegatee. */
  function EarnedBy(v: VoteInfo, immutable: map<Address, Delegatee>, perPower: nat, a: Address): int
  {
    if IsRewarding(immutable, v) then perPower * SumPowerOf(immutable[v.addr].stakes, a) else 0
  }

  function EarnedByAll(votes: seq<VoteInfo>, immutable: map<Address, Delegatee>, perPower: nat, a: Address): int
  {
    if votes == [] then 0
    else EarnedByAll(votes[..|votes| - 1], immutable, perPower, a) + EarnedBy(votes[|votes| - 1], immutable, perPower, a)
  }

  lemma EarnedIsNonNegative(v: VoteInfo, immutable: map<Address, Delegatee>, perPower: nat, a: Address)
    requires AllSound(immutable)
    ensures EarnedBy(v, immutable, perPower, a) >= 0
  {
    if IsRewarding(immutable, v) { SelfWithinTotal(immutable[v.addr].stakes, a); }
  }

  /** Who is rewarded by a vote: every owner of a stake of its validator by the own power, when the vote rewards at all. */
  lemma VoteEarns(w: World, v: VoteInfo, immutable: map<Address, Delegatee>, h: int, p: GovParams, a: Address)
    requires RewardsUpTo(w.rewards, h) && AllSound(immutable)
    requires Fits(w.rewards, a, h, EarnedBy(v, immutable, p.rewardPerPower, a))
    ensures var r := ProcessVote(w, v, immutable, h, p).rewards;
            && Earns(w.rewards, r, a, h, EarnedBy(v, immutable, p.rewardPerPower, a))
            && (IsRewarding(immutable, v) ==> OwnsNone(immutable[v.addr].stakes, a) ==> EntryOf(r, a) == EntryOf(w.rewards, a))
            && (!IsRewarding(immutable, v) ==> r == w.rewards)
  {
    if IsRewarding(immutable, v) {
      StakesEarnTheirOwners(w.rewards, immutable[v.addr].stakes, h, p.rewardPerPower, a);
    }
  }

  lemma {:induction false} VotesEarn(w: World, votes: seq<VoteInfo>, immutable: map<Address, Delegatee>, h: int, p: GovParams, a: Address)
    requires RewardsUpTo(w.rewards, h) && AllSound(immutable)
    requires Fits(w.rewards, a, h, EarnedByAll(votes, immutable, p.rewardPerPower, a))
    ensures Earns(w.rewards, ProcessVotes(w, votes, immutable, h, p).rewards, a, h, EarnedByAll(votes, immutable, p.rewardPerPower, a))
  {
    if votes != [] {
      var front, v := votes[..|votes| - 1], votes[|votes| - 1];
      EarnedIsNonNegative(v, immutable, p.rewardPerPower, a);
      VotesEarn(w, front, immutable, h, p, a);
      VoteEarns(ProcessVotes(w, front, immutable, h, p), v, immutable, h, p, a);
    }
  }

  /** What an address earns by the votes of a block; nobody earns anything without a version of the delegatees to look at. */
  function EarnedInBlock(c: Chain, b: Block, a: Address): int
  {
    var version := RewardVersion(c.history, c.height + 1);
    if version.None? then 0 else EarnedByAll(b.votes, version.value, c.params.rewardPerPower, a)
  }

  /** The start of a block adds to the reward of every address what its own stakes earn by the votes, and nothing else. */
  lemma BlockEarns(c: Chain, b: Block, a: Address, h: int) returns (r: Chain)
    requires h == c.height + 1 && RewardsUpTo(c.world.rewards, h) && HistorySound(c.history)
    requires Fits(c.world.rewards, a, h, EarnedInBlock(c, b, a))
    ensures r == BeginBlock(c, b) && Earns(c.world.rewards, r.world.rewards, a, h, EarnedInBlock(c, b, a))
  {
    r := BeginBlock(c, b);
    var judged := AfterEvidence(c, b.evidence);
    match RewardVersion(c.history, h)
    case None =>
    case Some(immutable) =>
      VotesChangeWorld(judged, b.votes, immutable, h, c.params);
      VotesEarn(judged.world, b.votes, immutable, h, c.params, a);
  }

  // ----- Evidence -----

  /** A delegatee, if there is one, after so many slashes. */
  function SlashTimes(found: Option<Delegatee>, ratio: int, n: nat): Option<Delegatee>
  {
    if found.None? || n == 0 then found else Some(SlashAll(SlashTimes(found, ratio, n - 1).value, ratio))
  }

  /** A punishment slashes the delegatee it names and leaves all others as they were. */
  lemma PunishSlashesOne(w: World, named: Address, ratio: int, a: Address) returns (r: World)
    ensures r == Punish(w, named, ratio) && r == w.(delegatees := r.delegatees)
    ensures r.delegatees.Get(a) == SlashTimes(w.delegatees.Get(a), ratio, if a == named then 1 else 0)
  {
    r := Punish(w, named, ratio);
    assert SlashTimes(w.delegatees.Get(a), ratio, 0) == w.delegatees.Get(a);
  }

  lemma {:induction false} SlashTimesAdds(found: Option<Delegatee>, ratio: int, m: nat, n: nat)
    requires n <= 1
    ensures SlashTimes(SlashTimes(found, ratio, m), ratio, n) == SlashTimes(found, ratio, m + n)
  {
    var once := SlashTimes(found, ratio, m);
    assert SlashTimes(once, ratio, 0) == once;
  }

  lemma {:induction false} PunishAllSlashes(w: World, evidence: seq<Address>, ratio: int, a: Address) returns (r: World)
    ensures r == PunishAll(w, evidence, ratio) && r == w.(delegatees := r.delegatees)
    ensures r.delegatees.Get(a) == SlashTimes(w.delegatees.Get(a), ratio, multiset(evidence)[a])
  {
    if evidence == [] {
      r := w;
    } else {
      var front, named := evidence[..|evidence| - 1], evidence[|evidence| - 1];
      assert evidence == front + [named];
      var before := PunishAllSlashes(w, front, ratio, a);
      r := PunishSlashesOne(before, named, ratio, a);
      var m, n := multiset(front)[a], if a == named then 1 else 0;
      assert multiset(evidence)[a] == m + n;
      SlashTimesAdds(w.delegatees.Get(a), ratio, m, n);
    }
  }

  /**
   Evidence slashes a delegatee by the ratio of the parameters as often as it names it, in whatever order it does, and
   touches nothing else.
   */
  lemma EvidenceSlashes(c: Chain, evidence: seq<Address>, a: Address)
    ensures var r := AfterEvidence(c, evidence).world;
            && r == c.world.(delegatees := r.delegatees)
            && r.delegatees.Get(a) == SlashTimes(c.world.delegatees.Get(a), c.params.slashRatio, multiset(evidence)[a])
  {
    var _ := PunishAllSlashes(c.world, evidence, c.params.slashRatio, a);
  }

  // ----- Missed blocks -----

  /** The first height of the window that ends with the block before h. */
  function WindowStart(h: int, p: GovParams): int
  {
    if h - 1 - p.signedBlocksWindow < 0 then 0 else h - 1 - p.signedBlocksWindow
  }

  /** Among some missed heights, the last one included, more lie in the window than the parameters allow. */
  predicate TooMany(heights: seq<int>, h: int, p: GovParams)
  {
    |Window(heights, WindowStart(h, p), h - 1)| > p.signedBlocksWindow - p.minSignedBlocks
  }

  /** The delegatee is as it was, but for its missed heights, and every other delegatee is untouched. */
  ghost predicate OnlyMarked(w: World, r: World, addr: Address, d: Delegatee)
  {
    && r == w.(delegatees := w.delegatees.Set(addr, d))
    && w.delegatees.Get(addr).Some? && d == w.delegatees.Get(addr).value.(notSignedHeights := d.notSignedHeights)
  }

  lemma MarkAdds(heights: seq<int>, h: int)
    requires forall x | x in heights :: x <= h
    ensures forall x :: x in MarkHeights(heights, h) <==> x in heights + [h]
    ensures Increasing(heights) ==> Increasing(MarkHeights(heights, h))
  {
    if heights != [] { assert heights[|heights| - 1] in heights; }
  }

  /** What a missed block leaves of the marks: the block is marked, and none but blocks before the window are forgotten. */
  ghost predicate Marks(heights: seq<int>, after: seq<int>, h: int, p: GovParams)
  {
    && h - 1 in after && (forall x | x in after :: x in heights + [h - 1])
    && SameFrom(after, MarkHeights(heights, h - 1), WindowStart(h, p))
  }

  /** Marking a block and pruning to a window forgets nothing in the window. */
  lemma MarkThenPrune(heights: seq<int>, b: int, s: int, marked: seq<int>, pruned: seq<int>)
    requires Increasing(heights) && (forall x | x in heights :: x <= b) && marked == MarkHeights(heights, b)
    requires pruned == marked || (s <= b && pruned == Pruned(marked, s))
    ensures b in pruned && (forall x | x in pruned :: x in heights + [b]) && SameFrom(pruned, marked, s)
    ensures Window(marked, s, b) == Window(heights + [b], s, b)
  {
    MarkAdds(heights, b);
    PruneKeepsSameFrom(marked, s);
  }

  lemma MissedMarks(d: Delegatee, h: int, b: int, p: GovParams)
    requires b == h - 1 >= 0 && Increasing(d.notSignedHeights) && forall x | x in d.notSignedHeights :: x <= b
    ensures Marks(d.notSignedHeights, Missed(d, h, p).0, h, p)
    ensures IsStopped(d, h, p) <==> TooMany(d.notSignedHeights + [b], h, p)
  {
    MarkThenPrune(d.notSignedHeights, b, WindowStart(h, p), MarkHeights(d.notSignedHeights, b), Missed(d, h, p).0);
  }

  /**
   A validator that misses the block before h is stopped, exactly when it has then missed more blocks of the
   window than the parameters allow. Otherwise it keeps its stakes and powers, and the height is marked.
   */
  lemma MissBlockStops(w: World, addr: Address, h: int, p: GovParams, d: Delegatee) returns (r: World)
    requires h >= 1 && w.delegatees.Get(addr) == Some(d)
    requires Increasing(d.notSignedHeights) && forall x | x in d.notSignedHeights :: x <= h - 1
    ensures r == MissBlock(w, addr, h, p)
    ensures r.delegatees.Get(addr).None? <==> TooMany(d.notSignedHeights + [h - 1], h, p)
    ensures match r.delegatees.Get(addr)
            case None => addr !in r.delegatees.working
            case Some(d') => OnlyMarked(w, r, addr, d') && Marks(d.notSignedHeights, d'.notSignedHeights, h, p)
  {
    r := MissBlock(w, addr, h, p);
    MissedMarks(d, h, h - 1, p);
  }

  /** A signed vote changes rewards alone, and a missing one is a missed block of its validator alone. */
  lemma VoteMarks(w: World, v: VoteInfo, immutable: map<Address, Delegatee>, h: int, p: GovParams) returns (r: World)
    requires RewardsUpTo(w.rewards, h) && AllSound(immutable)
    ensures r == ProcessVote(w, v, immutable, h, p)
    ensures v.signed ==> r == w.(rewards := r.rewards)
    ensures !v.signed ==> r == MissBlock(w, v.addr, h, p) && r.rewards == w.rewards && r.accounts == w.accounts
    ensures forall a | a != v.addr :: Lookup(r.delegatees.working, a) == Lookup(w.delegatees.working, a)
  {
    r := ProcessVote(w, v, immutable, h, p);
  }

  /** The votes of a validator that missed all these blocks, one after the other. */
  function MissAll(w: World, addr: Address, missed: seq<int>, p: GovParams): World
  {
    if missed == [] then w else MissBlock(MissAll(w, addr, missed[..|missed| - 1], p), addr, missed[|missed| - 1] + 1, p)
  }

  lemma MissAllSnoc(w: World, addr: Address, front: seq<int>, b: int, p: GovParams)
    ensures MissAll(w, addr, front + [b], p) == MissBlock(MissAll(w, addr, front, p), addr, b + 1, p)
    ensures MissAll(w, addr, front, p).delegatees.Get(addr).None? ==> MissAll(w, addr, front + [b], p) == MissAll(w, addr, front, p)
  {
    assert (front + [b])[..|front|] == front;
  }

  /** At the k-th of the missed blocks, too many of them lie in the window. */
  predicate StoppedAt(missed: seq<int>, k: nat, p: GovParams)
    requires k < |missed|
  {
    TooMany(missed[..k + 1], missed[k] + 1, p)
  }

  predicate NeverStopped(missed: seq<int>, p: GovParams)
  {
    forall k | 0 <= k < |missed| :: !StoppedAt(missed, k, p)
  }

  /** The marks of a validator that missed these blocks: all that still count, and no other blocks. */
  ghost predicate Remembers(heights: seq<int>, missed: seq<int>, p: GovParams)
  {
    && (forall x | x in heights :: x in missed)
    && (if missed == [] then heights == [] else
          missed[|missed| - 1] in heights && SameFrom(heights, missed, WindowStart(missed[|missed| - 1] + 1, p)))
  }

  /** A block missed after some others, as far as the marks of the others can tell. */
  ghost predicate Follows(heights: seq<int>, front: seq<int>, b: int, p: GovParams)
  {
    && b >= 0 && Increasing(heights) && Increasing(front) && (forall x | x in front :: x < b) && Remembers(heights, front, p)
  }

  lemma MarkedLikeAll(heights: seq<int>, front: seq<int>, b: int, p: GovParams)
    requires Follows(heights, front, b, p)
    ensures SameFrom(MarkHeights(heights, b), front + [b], WindowStart(b + 1, p))
  {
    var s := WindowStart(b + 1, p);
    var from := if front == [] then s else WindowStart(front[|front| - 1] + 1, p);
    assert front != [] ==> front[|front| - 1] in front;
    assert SameFrom(heights, front, from) && from <= s;
    MarkKeepsSameFrom(heights, front, from, b);
    assert MarkHeights(front, b) == front + [b];
  }

  /** The marks count like the list of all missed blocks. */
  lemma CountedLikeAll(heights: seq<int>, front: seq<int>, b: int, p: GovParams)
    requires Follows(heights, front, b, p)
    ensures TooMany(heights + [b], b + 1, p) <==> TooMany(front + [b], b + 1, p)
  {
    var s := WindowStart(b + 1, p);
    MarkedLikeAll(heights, front, b, p);
    MarkAdds(heights, b);
    assert Window(heights + [b], s, b) == Window(MarkHeights(heights, b), s, b) == Window(front + [b], s, b);
  }

  lemma RemembersOneMore(heights: seq<int>, after: seq<int>, front: seq<int>, b: int, p: GovParams)
    requires Follows(heights, front, b, p) && Marks(heights, after, b + 1, p)
    ensures Remembers(after, front + [b], p)
  {
    MarkedLikeAll(heights, front, b, p);
    SameFromIsTransitive(front + [b], MarkHeights(heights, b), after, WindowStart(b + 1, p), WindowStart(b + 1, p));
  }

  lemma MissOneMore(w: World, before: World, addr: Address, front: seq<int>, b: int, p: GovParams, d: Delegatee) returns (r: World)
    requires before.delegatees.Get(addr) == Some(d) && OnlyMarked(w, before, addr, d) && Follows(d.notSignedHeights, front, b, p)
    ensures r == MissBlock(before, addr, b + 1, p)
    ensures r.delegatees.Get(addr).None? <==> TooMany(front + [b], b + 1, p)
    ensures StillThere(w, r, addr, front + [b], p)
  {
    CountedLikeAll(d.notSignedHeights, front, b, p);
    r := MissBlockStops(before, addr, b + 1, p, d);
    if r.delegatees.Get(addr).Some? {
      RemembersOneMore(d.notSignedHeights, r.delegatees.Get(addr).value.notSignedHeights, front, b, p);
    }
  }

  /** A validator that is still there has kept all but its marks; one that is not has left no delegatee behind. */
  ghost predicate StillThere(w: World, r: World, addr: Address, missed: seq<int>, p: GovParams)
  {
    match r.delegatees.Get(addr)
    case None => addr !in r.delegatees.working
    case Some(d) => OnlyMarked(w, r, addr, d) && Increasing(d.notSignedHeights) && Remembers(d.notSignedHeights, missed, p)
  }

  /**
   From no marks and over any run of missed blocks, whatever is pruned meanwhile: a validator is still there exactly
   when at none of them more of the missed blocks lay in the window than the parameters allow. It then has the
   stakes and powers it started with.
   */
  lemma {:induction false} MissedRunStops(w: World, addr: Address, missed: seq<int>, p: GovParams, d: Delegatee) returns (r: World)
    requires w.delegatees.Get(addr) == Some(d) && d.notSignedHeights == []
    requires Increasing(missed) && (missed != [] ==> missed[0] >= 0)
    ensures r == MissAll(w, addr, missed, p)
    ensures r.delegatees.Get(addr).Some? <==> NeverStopped(missed, p)
    ensures StillThere(w, r, addr, missed, p)
  {
    if missed == [] {
      r := w;
    } else {
      var front, b := missed[..|missed| - 1], missed[|missed| - 1];
      var before := MissedRunStops(w, addr, front, p, d);
      assert missed == front + [b];
      MissAllSnoc(w, addr, front, b, p);
      StopsLater(front, b, p);
      if before.delegatees.Get(addr).Some? {
        r := MissOneMore(w, before, addr, front, b, p, before.delegatees.Get(addr).value);
      } else {
        r := before;
      }
    }
  }

  lemma StopsLater(front: seq<int>, b: int, p: GovParams)
    ensures NeverStopped(front + [b], p) <==> NeverStopped(front, p) && !TooMany(front + [b], b + 1, p)
  {
    var missed := front + [b];
    forall k | 0 <= k < |front| ensures StoppedAt(front, k, p) <==> StoppedAt(missed, k, p) {
      assert front[..k + 1] == missed[..k + 1];
    }
    assert missed[..|front| + 1] == missed;
    assert StoppedAt(missed, |front|, p) <==> TooMany(missed, b + 1, p);
  }
}
