/**
 ctrlers/types/gov_params.go: amounts and voting power. Amounts are 256-bit unsigned
 integers that wrap around; powers are signed 64-bit integers.
 */
module Amounts {
  import opened Prelude

  /** 2^256, 2^64 and 2^63 */
  const U256 := 0x1_00000000_00000000_00000000_00000000_00000000_00000000_00000000_00000000
  const U64 := 0x1_00000000_00000000
  const I63 := 0x80000000_00000000

  /** 2^255: from here on the Sign of a uint256 is negative. */
  const SIGN_BIT := 0x80000000_00000000_00000000_00000000_00000000_00000000_00000000_00000000

  type Amount256 = a: int | 0 <= a < U256

  /** One unit of power is one coin of 10^18. */
  const AMOUNT_PER_POWER := 1_000_000_000_000_000_000

  function Add256(a: nat, b: nat): nat
  {
    (a + b) % U256
  }

  function Mul256(a: nat, b: nat): nat
  {
    (a * b) % U256
  }

  /** AmountToPower; None where it panics. The quotient is cut to 64 bits before its sign is looked at. */
  function AmountToPower(amount: nat): Option<nat>
  {
    var q := (amount / AMOUNT_PER_POWER) % U64;
    if q >= I63 then None else Some(q)
  }

  function PowerToAmount(power: nat): nat
  {
    Mul256(power, AMOUNT_PER_POWER)
  }

  /** Every power comes back from its amount. */
  lemma PowerRoundTrip(power: nat)
    requires power < I63
    ensures PowerToAmount(power) == power * AMOUNT_PER_POWER
    ensures AmountToPower(PowerToAmount(power)) == Some(power)
  {
    assert power * AMOUNT_PER_POWER < U256;
    assert power * AMOUNT_PER_POWER / AMOUNT_PER_POWER == power;
  }

  /** An amount is worth its power exactly when it is a multiple of one coin and fits. */
  lemma AmountRoundTrip(amount: nat)
    requires amount < U256
    ensures (AmountToPower(amount).Some? && PowerToAmount(AmountToPower(amount).value) == amount)
            <==> (amount % AMOUNT_PER_POWER == 0 && amount / AMOUNT_PER_POWER < I63)
  {
    var q := amount / AMOUNT_PER_POWER;
    if AmountToPower(amount).Some? {
      var p := AmountToPower(amount).value;
      PowerRoundTrip(p);
      if p * AMOUNT_PER_POWER == amount {
        assert q == p;
      }
    }
    if q < I63 && amount % AMOUNT_PER_POWER == 0 {
      PowerRoundTrip(q);
    }
  }
}
