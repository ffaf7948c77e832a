/**
 ctrlers/stake/stake.go and delegatee.go: a delegatee and the stakes it holds, with the
 powers it keeps in step with them. A delegatee is stored in a ledger as a value (the
 datatype) and changed in memory as an object (the class).
 */
module Delegatees {
  import opened Prelude

  type Address = Bytes
  type Hash = Bytes

  datatype Stake = Stake(from: Address, to: Address, txHash: Hash, startHeight: int, refundHeight: int, power: int)
  {
    predicate IsSelfStake()
    {
      from == to
    }
  }

  datatype Delegatee = Delegatee(
    addr: Address, pubKey: Bytes,
    selfPower: int, totalPower: int, slashedPower: int,
    stakes: seq<Stake>, notSignedHeights: seq<int>)

  function NewDelegatee(addr: Address, pubKey: Bytes): Delegatee
  {
    Delegatee(addr, pubKey, 0, 0, 0, [], [])
  }

  function Power(s: Stake): int
  {
    s.power
  }

  function SumPower(stakes: seq<Stake>): int
  {
    SumSeq(Power, stakes)
  }

  function PowerFrom(owner: Address): Stake -> int
  {
    (s: Stake) => if s.from == owner then s.power else 0
  }

  /** sumPowerOf(owner) */
  function SumPowerOf(stakes: seq<Stake>, owner: Address): int
  {
    SumSeq(PowerFrom(owner), stakes)
  }

  predicate DistinctHashes(stakes: seq<Stake>)
  {
    forall i, j | 0 <= i < j < |stakes| :: stakes[i].txHash != stakes[j].txHash
  }

  function Hashes(stakes: seq<Stake>): set<Hash>
  {
    set s | s in stakes :: s.txHash
  }

  /** What every delegatee kept in the ledger satisfies: its powers are the sums of its stakes. */
  ghost predicate Sound(d: Delegatee)
  {
    && d.totalPower == SumPower(d.stakes)
    && d.selfPower == SumPowerOf(d.stakes, d.addr)
    && (forall s | s in d.stakes :: s.to == d.addr && s.power >= 0)
    && DistinctHashes(d.stakes)
  }

  // ----- Operations -----

  function WithStake(d: Delegatee, s: Stake): Delegatee
  {
    d.(stakes := d.stakes + [s],
       selfPower := d.selfPower + if s.IsSelfStake() then s.power else 0,
       totalPower := d.totalPower + s.power)
  }

  function WithStakes(d: Delegatee, stakes: seq<Stake>): Delegatee
  {
    if stakes == [] then d else WithStake(WithStakes(d, stakes[..|stakes| - 1]), stakes[|stakes| - 1])
  }

  /** The position of the first stake with this hash, or -1. */
  function FindStake(stakes: seq<Stake>, hash: Hash): (i: int)
    ensures -1 <= i < |stakes|
    ensures i >= 0 ==> stakes[i].txHash == hash
    ensures i < 0 ==> forall s | s in stakes :: s.txHash != hash
  {
    if stakes == [] then -1
    else if stakes[0].txHash == hash then 0
    else
      var i := FindStake(stakes[1..], hash);
      if i < 0 then -1 else i + 1
  }

  function RemoveByHash(stakes: seq<Stake>, hash: Hash): seq<Stake>
  {
    var i := FindStake(stakes, hash);
    if i < 0 then stakes else stakes[..i] + stakes[i + 1..]
  }

  function WithoutStake(d: Delegatee, hash: Hash): Delegatee
  {
    var i := FindStake(d.stakes, hash);
    if i < 0 then d
    else
      var s := d.stakes[i];
      d.(stakes := RemoveByHash(d.stakes, hash),
         selfPower := d.selfPower - (if s.IsSelfStake() then s.power else 0),
         totalPower := d.totalPower - s.power)
  }

  /** The self power is left as it was. */
  function WithoutStakes(d: Delegatee): Delegatee
  {
    d.(stakes := [], totalPower := d.totalPower - SumPower(d.stakes))
  }

  // ----- Slashing -----

  function Cut(s: Stake, ratio: int): int
  {
    Quo(s.power * ratio, 100)
  }

  /** A stake too small to be cut by at least 1 is removed altogether. */
  predicate Doomed(s: Stake, ratio: int)
  {
    Cut(s, ratio) < 1
  }

  function Reduced(s: Stake, ratio: int): Stake
  {
    if Doomed(s, ratio) then s else s.(power := s.power - Cut(s, ratio))
  }

  function ReduceAll(stakes: seq<Stake>, ratio: int): seq<Stake>
  {
    if stakes == [] then [] else [Reduced(stakes[0], ratio)] + ReduceAll(stakes[1..], ratio)
  }

  function DoomedOf(stakes: seq<Stake>, ratio: int): seq<Stake>
  {
    if stakes == [] then []
    else if Doomed(stakes[0], ratio) then [stakes[0]] + DoomedOf(stakes[1..], ratio)
    else DoomedOf(stakes[1..], ratio)
  }

  function RemoveAll(stakes: seq<Stake>, gone: seq<Stake>): seq<Stake>
    decreases |gone|
  {
    if gone == [] then stakes else RemoveAll(RemoveByHash(stakes, gone[0].txHash), gone[1..])
  }

  /** The slashed power that is reported: the removed stakes are not in it. */
  function SumCuts(stakes: seq<Stake>, ratio: int): int
  {
    if stakes == [] then 0
    else (if Doomed(stakes[0], ratio) then 0 else Cut(stakes[0], ratio)) + SumCuts(stakes[1..], ratio)
  }

  function SlashAll(d: Delegatee, ratio: int): Delegatee
  {
    var left := RemoveAll(ReduceAll(d.stakes, ratio), DoomedOf(d.stakes, ratio));
    d.(stakes := left, selfPower := SumPowerOf(left, d.addr), totalPower := SumPower(left))
  }

  /** The stakes that a slash leaves, said without hashes: those cut by at least 1, reduced by the cut. */
  function Survivors(stakes: seq<Stake>, ratio: int): seq<Stake>
  {
    if stakes == [] then []
    else if Doomed(stakes[0], ratio) then Survivors(stakes[1..], ratio)
    else [Reduced(stakes[0], ratio)] + Survivors(stakes[1..], ratio)
  }

  lemma FindSkipsHead(s: Stake, rest: seq<Stake>, h: Hash)
    requires s.txHash != h
    ensures FindStake([s] + rest, h) == if FindStake(rest, h) < 0 then -1 else FindStake(rest, h) + 1
  {
    assert ([s] + rest)[1..] == rest;
  }

  lemma RemoveSkipsHead(s: Stake, rest: seq<Stake>, h: Hash)
    requires s.txHash != h
    ensures RemoveByHash([s] + rest, h) == [s] + RemoveByHash(rest, h)
  {
    var all, i := [s] + rest, FindStake(rest, h);
    FindSkipsHead(s, rest, h);
    if i >= 0 {
      assert all[..i + 1] == [s] + rest[..i];
      assert all[i + 2..] == rest[i + 1..];
    }
  }

  lemma {:induction false} RemoveAllSkipsHead(s: Stake, rest: seq<Stake>, gone: seq<Stake>)
    requires forall g | g in gone :: g.txHash != s.txHash
    ensures RemoveAll([s] + rest, gone) == [s] + RemoveAll(rest, gone)
    decreases |gone|
  {
    if gone != [] {
      var left := RemoveByHash(rest, gone[0].txHash);
      RemoveSkipsHead(s, rest, gone[0].txHash);
      RemoveAllSkipsHead(s, left, gone[1..]);
    }
  }

  lemma {:induction false} DoomedOfIsPart(stakes: seq<Stake>, ratio: int)
    ensures forall g | g in DoomedOf(stakes, ratio) :: g in stakes
  {
    if stakes != [] { DoomedOfIsPart(stakes[1..], ratio); }
  }

  /** Removing by hash removes the stakes that were meant, because hashes are distinct. */
  lemma {:induction false} SlashLeavesSurvivors(stakes: seq<Stake>, ratio: int)
    requires DistinctHashes(stakes)
    ensures RemoveAll(ReduceAll(stakes, ratio), DoomedOf(stakes, ratio)) == Survivors(stakes, ratio)
  {
    if stakes != [] {
      var s, rest := stakes[0], stakes[1..];
      SlashLeavesSurvivors(rest, ratio);
      DoomedOfIsPart(rest, ratio);
      if Doomed(s, ratio) {
        var reduced := ReduceAll(stakes, ratio);
        assert reduced == [s] + ReduceAll(rest, ratio);
        assert RemoveByHash(reduced, s.txHash) == ReduceAll(rest, ratio);
        assert DoomedOf(stakes, ratio)[1..] == DoomedOf(rest, ratio);
      } else {
        RemoveAllSkipsHead(Reduced(s, ratio), ReduceAll(rest, ratio), DoomedOf(rest, ratio));
      }
    }
  }

  lemma {:induction false} SurvivorsBalance(stakes: seq<Stake>, ratio: int)
    ensures SumPower(stakes) == SumPower(Survivors(stakes, ratio)) + SumCuts(stakes, ratio) + SumPower(DoomedOf(stakes, ratio))
  {
    if stakes != [] { SurvivorsBalance(stakes[1..], ratio); }
  }

  lemma CutWithin(s: Stake, ratio: int)
    requires s.power >= 0 && 0 <= ratio <= 100
    ensures 0 <= Cut(s, ratio) <= s.power
  {
    assert s.power * ratio >= 0;
    assert s.power * ratio <= s.power * 100;
  }

  /** r is what is left of one of the stakes. */
  ghost predicate CutFrom(r: Stake, stakes: seq<Stake>)
  {
    exists s | s in stakes :: r == s.(power := r.power) && 0 <= r.power <= s.power
  }

  lemma {:induction false} SurvivorsAreCut(stakes: seq<Stake>, ratio: int)
    requires 0 <= ratio <= 100
    requires forall s | s in stakes :: s.power >= 0
    ensures forall r | r in Survivors(stakes, ratio) :: CutFrom(r, stakes)
    ensures 0 <= SumCuts(stakes, ratio) && 0 <= SumPower(DoomedOf(stakes, ratio))
  {
    if stakes != [] {
      var s, rest := stakes[0], stakes[1..];
      SurvivorsAreCut(rest, ratio);
      CutWithin(s, ratio);
      forall r | r in Survivors(rest, ratio) ensures CutFrom(r, stakes) {
        var o :| o in rest && r == o.(power := r.power) && 0 <= r.power <= o.power;
        assert o in stakes;
      }
      if !Doomed(s, ratio) {
        var r := Reduced(s, ratio);
        assert s in stakes && r == s.(power := r.power);
      }
    }
  }

  lemma {:induction false} SurvivorsKeepHashes(stakes: seq<Stake>, ratio: int)
    requires DistinctHashes(stakes)
    ensures Hashes(Survivors(stakes, ratio)) <= Hashes(stakes)
    ensures DistinctHashes(Survivors(stakes, ratio))
  {
    if stakes != [] {
      var s, rest := stakes[0], stakes[1..];
      SurvivorsKeepHashes(rest, ratio);
      assert stakes == [s] + rest;
      HashesCons(s, rest);
      if !Doomed(s, ratio) {
        var left := Survivors(rest, ratio);
        HashesCons(Reduced(s, ratio), left);
        forall i | 0 <= i < |left| ensures left[i].txHash != s.txHash {
          assert left[i].txHash in Hashes(left);
          var o :| o in rest && o.txHash == left[i].txHash;
        }
      }
    }
  }

  lemma HashesCons(s: Stake, rest: seq<Stake>)
    ensures Hashes([s] + rest) == {s.txHash} + Hashes(rest)
  {
    assert forall x :: x in [s] + rest <==> x == s || x in rest;
  }

  /**
   A slash with a ratio between 0 and 100 keeps the delegatee sound; its old total is the new total, plus
   what is reported as slashed, plus the power of the removed stakes, which is not reported.
   */
  lemma SlashBalance(d: Delegatee, ratio: int)
    requires Sound(d) && 0 <= ratio <= 100
    ensures Sound(SlashAll(d, ratio))
    ensures d.totalPower == SlashAll(d, ratio).totalPower + SumCuts(d.stakes, ratio) + SumPower(DoomedOf(d.stakes, ratio))
    ensures SumCuts(d.stakes, ratio) >= 0 && SumPower(DoomedOf(d.stakes, ratio)) >= 0
    ensures Hashes(SlashAll(d, ratio).stakes) <= Hashes(d.stakes)
  {
    SlashLeavesSurvivors(d.stakes, ratio);
    SurvivorsBalance(d.stakes, ratio);
    SurvivorsAreCut(d.stakes, ratio);
    SurvivorsKeepHashes(d.stakes, ratio);
  }

  /** What is left of a delegatee was in it before. */
  lemma SlashCutsStakes(d: Delegatee, ratio: int)
    requires Sound(d) && 0 <= ratio <= 100
    ensures forall r | r in SlashAll(d, ratio).stakes :: CutFrom(r, d.stakes)
  {
    SlashLeavesSurvivors(d.stakes, ratio);
    SurvivorsAreCut(d.stakes, ratio);
  }

  /** What a slash takes from a stake that it keeps, in whole units of power, and 0 for a stake that it removes. */
  function ShareOf(ratio: int): Stake -> int
  {
    (s: Stake) => if s.power * ratio >= 100 then s.power * ratio / 100 else 0
  }

  lemma CutIsShare(s: Stake, ratio: int)
    requires s.power >= 0 && 0 <= ratio <= 100
    ensures Doomed(s, ratio) <==> s.power * ratio < 100
    ensures !Doomed(s, ratio) ==> Reduced(s, ratio) == s.(power := s.power - s.power * ratio / 100)
    ensures ShareOf(ratio)(s) == if Doomed(s, ratio) then 0 else Cut(s, ratio)
  {
    assert s.power * ratio >= 0;
  }

  lemma {:induction false} SurvivorsAreShares(stakes: seq<Stake>, ratio: int)
    requires 0 <= ratio <= 100 && forall s | s in stakes :: s.power >= 0
    ensures forall s | s in stakes && s.power * ratio >= 100 ::
              s.(power := s.power - s.power * ratio / 100) in Survivors(stakes, ratio)
    ensures forall r | r in Survivors(stakes, ratio) ::
              exists s | s in stakes :: s.power * ratio >= 100 && r == s.(power := s.power - s.power * ratio / 100)
    ensures SumCuts(stakes, ratio) == SumSeq(ShareOf(ratio), stakes)
  {
    if stakes != [] {
      SurvivorsAreShares(stakes[1..], ratio);
      CutIsShare(stakes[0], ratio);
    }
  }

  /**
   How much a slash takes: a stake stays exactly when the ratio of it is at least 1, and is then cut by that; every
   other stake is gone. What is reported is the sum of the cuts.
   */
  lemma SlashTakesShares(d: Delegatee, ratio: int)
    requires Sound(d) && 0 <= ratio <= 100
    ensures forall s | s in d.stakes :: s.txHash in Hashes(SlashAll(d, ratio).stakes) <==> s.power * ratio >= 100
    ensures forall s | s in d.stakes && s.power * ratio >= 100 ::
              s.(power := s.power - s.power * ratio / 100) in SlashAll(d, ratio).stakes
    ensures forall r | r in SlashAll(d, ratio).stakes ::
              exists s | s in d.stakes :: s.power * ratio >= 100 && r == s.(power := s.power - s.power * ratio / 100)
    ensures SumCuts(d.stakes, ratio) == SumSeq(ShareOf(ratio), d.stakes)
  {
    var left := SlashAll(d, ratio).stakes;
    SlashLeavesSurvivors(d.stakes, ratio);
    SurvivorsAreShares(d.stakes, ratio);
    forall s | s in d.stakes ensures s.txHash in Hashes(left) <==> s.power * ratio >= 100 {
      if s.txHash in Hashes(left) {
        var r :| r in left && r.txHash == s.txHash;
        var o :| o in d.stakes && o.power * ratio >= 100 && r == o.(power := o.power - o.power * ratio / 100);
        assert o == s;
      }
    }
  }

  /** A ratio of 0 does not spare a delegatee: it removes every stake. */
  lemma {:induction false} SlashByZeroRemovesAll(stakes: seq<Stake>)
    ensures Survivors(stakes, 0) == [] && SumCuts(stakes, 0) == 0 && DoomedOf(stakes, 0) == stakes
  {
    if stakes != [] { SlashByZeroRemovesAll(stakes[1..]); }
  }

  // ----- Soundness is kept -----

  lemma AddStakeKeepsSound(d: Delegatee, s: Stake)
    requires Sound(d) && s.to == d.addr && s.power >= 0 && s.txHash !in Hashes(d.stakes)
    ensures Sound(WithStake(d, s))
    ensures Hashes(WithStake(d, s).stakes) == Hashes(d.stakes) + {s.txHash}
    ensures SumPower(WithStake(d, s).stakes) == SumPower(d.stakes) + s.power
  {
    SumSeqAppend(Power, d.stakes, s);
    SumSeqAppend(PowerFrom(d.addr), d.stakes, s);
    var all := d.stakes + [s];
    forall i | 0 <= i < |d.stakes| ensures all[i].txHash != s.txHash { assert d.stakes[i].txHash in Hashes(d.stakes); }
    assert Hashes(all) == Hashes(d.stakes) + {s.txHash} by {
      assert s in all;
      assert forall x | x in d.stakes :: x in all;
    }
  }

  lemma RemoveAtHashes(stakes: seq<Stake>, i: nat)
    requires DistinctHashes(stakes) && i < |stakes|
    ensures DistinctHashes(stakes[..i] + stakes[i + 1..])
    ensures Hashes(stakes[..i] + stakes[i + 1..]) == Hashes(stakes) - {stakes[i].txHash}
  {
    var a, b := stakes[..i], stakes[i + 1..];
    assert stakes == a + [stakes[i]] + b;
    assert forall x :: x in stakes <==> x in a || x == stakes[i] || x in b;
    assert forall x :: x in a + b <==> x in a || x in b;
    assert forall x | x in a || x in b :: x.txHash != stakes[i].txHash;
  }

  lemma RemoveByHashRemovesOne(stakes: seq<Stake>, hash: Hash)
    requires DistinctHashes(stakes) && FindStake(stakes, hash) >= 0
    ensures DistinctHashes(RemoveByHash(stakes, hash))
    ensures Hashes(RemoveByHash(stakes, hash)) == Hashes(stakes) - {hash}
    ensures SumPower(RemoveByHash(stakes, hash)) == SumPower(stakes) - stakes[FindStake(stakes, hash)].power
    ensures forall s | s in RemoveByHash(stakes, hash) :: s in stakes
  {
    var i := FindStake(stakes, hash);
    SumSeqRemoveAt(Power, stakes, i);
    RemoveAtHashes(stakes, i);
  }

  lemma DelStakeKeepsSound(d: Delegatee, hash: Hash)
    requires Sound(d)
    ensures Sound(WithoutStake(d, hash))
  {
    var i := FindStake(d.stakes, hash);
    if i >= 0 {
      RemoveByHashRemovesOne(d.stakes, hash);
      SumSeqRemoveAt(PowerFrom(d.addr), d.stakes, i);
    }
  }

  lemma DelAllLeavesNothing(d: Delegatee)
    requires Sound(d)
    ensures WithoutStakes(d).totalPower == 0 && WithoutStakes(d).stakes == []
  {
  }

  /** Total and self power are nonnegative, and the self power is part of the total. */
  lemma {:induction false} SelfWithinTotal(stakes: seq<Stake>, owner: Address)
    requires forall s | s in stakes :: s.power >= 0
    ensures 0 <= SumPowerOf(stakes, owner) <= SumPower(stakes)
  {
    if stakes != [] {
      assert forall x | x in stakes[1..] :: x in stakes;
      SelfWithinTotal(stakes[1..], owner);
    }
  }

  lemma {:induction false} SlashSnoc(stakes: seq<Stake>, s: Stake, ratio: int)
    ensures ReduceAll(stakes + [s], ratio) == ReduceAll(stakes, ratio) + [Reduced(s, ratio)]
    ensures DoomedOf(stakes + [s], ratio) == DoomedOf(stakes, ratio) + if Doomed(s, ratio) then [s] else []
    ensures SumCuts(stakes + [s], ratio) == SumCuts(stakes, ratio) + if Doomed(s, ratio) then 0 else Cut(s, ratio)
    ensures |ReduceAll(stakes, ratio)| == |stakes|
  {
    if stakes != [] {
      assert (stakes + [s])[1..] == stakes[1..] + [s];
      SlashSnoc(stakes[1..], s, ratio);
    }
  }

  // ----- The object -----

  class DelegateeObject {
    const addr: Address
    const pubKey: Bytes
    var selfPower: int
    var totalPower: int
    var slashedPower: int
    var stakes: seq<Stake>
    var notSignedHeights: seq<int>

    function Encode(): Delegatee
      reads this
    {
      Delegatee(addr, pubKey, selfPower, totalPower, slashedPower, stakes, notSignedHeights)
    }

    constructor Decode(d: Delegatee)
      ensures Encode() == d
    {
      addr, pubKey := d.addr, d.pubKey;
      selfPower, totalPower, slashedPower := d.selfPower, d.totalPower, d.slashedPower;
      stakes, notSignedHeights := d.stakes, d.notSignedHeights;
    }

    method AddStake(added: seq<Stake>)
      modifies this
      ensures Encode() == WithStakes(old(Encode()), added)
    {
      ghost var start := Encode();
      var base := stakes;
      stakes := stakes + added;
      for i := 0 to |added|
        invariant stakes == base + added
        invariant Encode().(stakes := base + added[..i]) == WithStakes(start, added[..i])
      {
        if added[i].IsSelfStake() { selfPower := selfPower + added[i].power; }
        totalPower := totalPower + added[i].power;
        assert added[..i + 1] == added[..i] + [added[i]];
        assert base + added[..i + 1] == base + added[..i] + [added[i]];
      }
      assert added[..|added|] == added;
    }

    method FindStakeIndex(hash: Hash) returns (i: int)
      ensures i == FindStake(stakes, hash)
    {
      i := 0;
      while i < |stakes|
        invariant 0 <= i <= |stakes|
        invariant FindStake(stakes, hash) == var j := FindStake(stakes[i..], hash); if j < 0 then -1 else i + j
      {
        if stakes[i].txHash == hash { return i; }
        assert stakes[i..][1..] == stakes[i + 1..];
        i := i + 1;
      }
      i := -1;
    }

    method DelStakeByHash(hash: Hash) returns (s: Option<Stake>)
      modifies this
      ensures Encode() == old(Encode()).(stakes := RemoveByHash(old(stakes), hash))
      ensures s == var i := FindStake(old(stakes), hash); if i < 0 then None else Some(old(stakes)[i])
    {
      var i := FindStakeIndex(hash);
      if i < 0 { return None; }
      s := Some(stakes[i]);
      stakes := stakes[..i] + stakes[i + 1..];
    }

    method DelStake(hash: Hash) returns (s: Option<Stake>)
      modifies this
      ensures Encode() == WithoutStake(old(Encode()), hash)
      ensures s == var i := FindStake(old(stakes), hash); if i < 0 then None else Some(old(stakes)[i])
    {
      s := DelStakeByHash(hash);
      if s.Some? {
        if s.value.IsSelfStake() { selfPower := selfPower - s.value.power; }
        totalPower := totalPower - s.value.power;
      }
    }

    method DelAllStakes() returns (gone: seq<Stake>)
      modifies this
      ensures Encode() == WithoutStakes(old(Encode()))
      ensures gone == old(stakes)
    {
      gone := stakes;
      stakes := [];
      for i := 0 to |gone|
        invariant stakes == []
        invariant Encode() == old(Encode()).(stakes := [], totalPower := old(totalPower) - SumPower(gone[..i]))
      {
        SumSeqAppend(Power, gone[..i], gone[i]);
        assert gone[..i + 1] == gone[..i] + [gone[i]];
        totalPower := totalPower - gone[i].power;
      }
      assert gone[..|gone|] == gone;
    }

    method SumStakes(owner: Option<Address>) returns (power: int)
      ensures power == if owner.None? then SumPower(stakes) else SumPowerOf(stakes, owner.value)
    {
      power := 0;
      ghost var f := if owner.None? then Power else PowerFrom(owner.value);
      for i := 0 to |stakes|
        invariant power == SumSeq(f, stakes[..i])
      {
        SumSeqAppend(f, stakes[..i], stakes[i]);
        assert stakes[..i + 1] == stakes[..i] + [stakes[i]];
        if owner.None? || owner.value == stakes[i].from { power := power + stakes[i].power; }
      }
      assert stakes[..|stakes|] == stakes;
    }

    /** The list of stakes with the changed powers is written back once, after the loop. */
    method ReduceStakes(ratio: int) returns (slashed: int, removing: seq<Stake>)
      modifies this
      ensures Encode() == old(Encode()).(stakes := ReduceAll(old(stakes), ratio))
      ensures slashed == SumCuts(old(stakes), ratio) && removing == DoomedOf(old(stakes), ratio)
    {
      slashed, removing := 0, [];
      var reduced: seq<Stake> := [];
      for i := 0 to |stakes|
        invariant unchanged(this)
        invariant reduced == ReduceAll(stakes[..i], ratio)
        invariant removing == DoomedOf(stakes[..i], ratio) && slashed == SumCuts(stakes[..i], ratio)
      {
        var s0 := stakes[i];
        SlashSnoc(stakes[..i], s0, ratio);
        assert stakes[..i + 1] == stakes[..i] + [s0];
        var cut := Cut(s0, ratio);
        if cut < 1 {
          removing := removing + [s0];
          reduced := reduced + [s0];
        } else {
          reduced := reduced + [s0.(power := s0.power - cut)];
          slashed := slashed + cut;
        }
      }
      assert stakes[..|stakes|] == stakes;
      stakes := reduced;
    }

    /** Returns the reported slashed power. */
    method DoSlash(ratio: int) returns (slashed: int)
      modifies this
      ensures Encode() == SlashAll(old(Encode()), ratio)
      ensures slashed == SumCuts(old(stakes), ratio)
      ensures old(Sound(Encode())) && 0 <= ratio <= 100 ==> slashed == SumSeq(ShareOf(ratio), old(stakes))
    {
      if Sound(Encode()) && 0 <= ratio <= 100 { SlashTakesShares(Encode(), ratio); }
      var removing;
      slashed, removing := ReduceStakes(ratio);
      RemoveStakes(removing);
      selfPower := SumStakes(Some(addr));
      totalPower := SumStakes(None);
    }

    method RemoveStakes(removing: seq<Stake>)
      modifies this
      ensures Encode() == old(Encode()).(stakes := RemoveAll(old(stakes), removing))
    {
      for i := 0 to |removing|
        invariant Encode() == old(Encode()).(stakes := stakes)
        invariant RemoveAll(old(stakes), removing) == RemoveAll(stakes, removing[i..])
      {
        assert removing[i..][1..] == removing[i + 1..];
        var _ := DelStakeByHash(removing[i].txHash);
      }
    }
  }
}
