/** ctrlers/stake/reward.go: the reward account of a staker. */
module Rewards {
  import opened Amounts
  import opened Delegatees

  datatype Reward = Reward(address: Address, issued: nat, withdrawn: nat, slashed: nat, cumulated: nat, height: int)

  function NewReward(address: Address): Reward
  {
    Reward(address, 0, 0, 0, 0, 0)
  }

  function Sub256(a: nat, b: nat): nat
    requires b < U256
  {
    (a + U256 - b) % U256
  }

  /** Issue panics at a height before the last one. */
  function Issued(r: Reward, amount: nat, h: int): Reward
    requires r.height <= h
  {
    r.(issued := if r.height < h then amount else Add256(r.issued, amount),
       height := h, cumulated := Add256(r.cumulated, amount))
  }

  /** So does Withdraw; it does not look at what there is to withdraw. */
  function Withdrawn(r: Reward, amount: nat, h: int): Reward
    requires r.height <= h && amount < U256
  {
    r.(withdrawn := if r.height < h then amount else Add256(r.withdrawn, amount),
       height := h, cumulated := Sub256(r.cumulated, amount))
  }

  class RewardObject {
    const address: Address
    var issued: nat
    var withdrawn: nat
    var slashed: nat
    var cumulated: nat
    var height: int

    function Encode(): Reward
      reads this
    {
      Reward(address, issued, withdrawn, slashed, cumulated, height)
    }

    constructor Decode(r: Reward)
      ensures Encode() == r
    {
      address := r.address;
      issued, withdrawn, slashed, cumulated := r.issued, r.withdrawn, r.slashed, r.cumulated;
      height := r.height;
    }

    method Issue(r: nat, h: int) returns (panicked: bool)
      modifies this
      ensures panicked <==> h < old(height)
      ensures panicked ==> unchanged(this)
      ensures !panicked ==> Encode() == Issued(old(Encode()), r, h)
    {
      if height < h {
        issued := r;
        height := h;
      } else if height == h {
        issued := Add256(issued, r);
      } else {
        return true;
      }
      cumulated := Add256(cumulated, r);
      return false;
    }

    method Withdraw(r: nat, h: int) returns (panicked: bool)
      requires r < U256
      modifies this
      ensures panicked <==> h < old(height)
      ensures panicked ==> unchanged(this)
      ensures !panicked ==> Encode() == Withdrawn(old(Encode()), r, h)
    {
      if height < h {
        withdrawn := r;
        height := h;
      } else if height == h {
        withdrawn := Add256(withdrawn, r);
      } else {
        return true;
      }
      cumulated := Sub256(cumulated, r);
      return false;
    }
  }
}
