/**
 node/trx_executor.go with the account and staking controllers: what an executed transaction leaves of every
 account, delegatee, frozen stake and reward, and exactly which transactions are executed.
 */
module Deliveries {
  import opened Prelude
  import opened Overlays
  import opened Amounts
  import opened Delegatees
  import opened Rewards
  import opened Accounts
  import opened GovernanceParams
  import opened Staking
  import opened Conservation
  import opened Chains
  import opened ChainLaws
  import opened StakeLives

  // ----- Accounts -----

  /** An address without account has no coins, no nonce and no document. */
  function AccountAt(book: Book, a: Address): Account
  {
    if a in book then book[a] else Account(0, 0, "", "")
  }

  /** The coins an address gets by a transaction. */
  function Income(tx: Tx, a: Address): nat
  {
    match tx.kind
    case TrxTransfer => if a == tx.to then tx.amount else 0
    case TrxWithdraw(request) => if a == tx.from then request else 0
    case _ => 0
  }

  /** The coins an address gives by a transaction. */
  function Outgo(tx: Tx, fee: nat, a: Address): nat
  {
    if a != tx.from then 0
    else if tx.kind.TrxTransfer? || tx.kind.TrxStaking? then tx.amount + fee
    else fee
  }

  /** What a transaction that takes a fee leaves of an account. */
  ghost predicate AccountAfter(tx: Tx, fee: nat, a: Address, was: Account, now: Account)
  {
    && now.balance == was.balance + Income(tx, a) - Outgo(tx, fee, a)
    && now.nonce == was.nonce + (if a == tx.from then 1 else 0)
    && now.name == (if a == tx.from && tx.kind.TrxSetDoc? then tx.kind.name else was.name)
    && now.docURL == (if a == tx.from && tx.kind.TrxSetDoc? then tx.kind.url else was.docURL)
  }

  /** The world that the execution of an executed transaction left. */
  lemma ExecutedRan(c: Chain, tx: Tx, h: int) returns (r: World)
    requires h == c.height + 1 && RewardsUpTo(c.world.rewards, h) && Deliver(c, tx).1 == Executed
    ensures tx.from in c.world.accounts && Validate(Receiving(c, tx), tx, c.params)
    ensures Execute(Receiving(c, tx), tx, h, c.params) == (r, true)
    ensures tx.from in r.accounts && Fee(tx) <= r.accounts[tx.from].balance
    ensures Deliver(c, tx).0 == Charged(c, Receiving(c, tx), r, tx, Fee(tx))
  {
    r := Execute(Receiving(c, tx), tx, h, c.params).0;
    DeliverIsCharge(c, tx, r);
  }

  /** The account that the fee is still to be taken from. */
  ghost predicate AccountBefore(tx: Tx, a: Address, was: Account, now: Account)
  {
    AccountAfter(tx, 0, a, was, now.(nonce := now.nonce + if a == tx.from then 1 else 0))
  }

  lemma TransferLeaves(book: Book, tx: Tx, a: Address)
    requires tx.kind.TrxTransfer? && tx.from in book && tx.to in book && a in book && TotalBalance(book) < U256
    requires ExeTransfer(book, tx.from, tx.to, tx.amount).1
    ensures var r := ExeTransfer(book, tx.from, tx.to, tx.amount).0; r.Keys == book.Keys && AccountBefore(tx, a, book[a], r[a])
  {
    DebitSubtracts(book, tx.from, tx.amount);
    CreditAdds(Debit(book, tx.from, tx.amount), tx.to, tx.amount);
  }

  lemma WithdrawalLeaves(w: World, tx: Tx, h: int, a: Address)
    requires tx.kind.TrxWithdraw? && tx.from in w.accounts && a in w.accounts && RewardsUpTo(w.rewards, h)
    requires TotalBalance(w.accounts) + tx.kind.request < U256 && ExeWithdraw(w, tx.from, tx.kind.request, h).1
    ensures var r := ExeWithdraw(w, tx.from, tx.kind.request, h).0.accounts;
            r.Keys == w.accounts.Keys && AccountBefore(tx, a, w.accounts[a], r[a])
  {
    CreditAdds(w.accounts, tx.from, tx.kind.request);
  }

  /** What execution leaves of an account, before the fee is taken. */
  lemma ExecutionLeaves(w: World, tx: Tx, h: int, p: GovParams, a: Address)
    requires tx.from in w.accounts && tx.to in w.accounts && a in w.accounts && RewardsUpTo(w.rewards, h)
    requires TotalBalance(w.accounts) + TakenBy(tx) < U256 && Execute(w, tx, h, p).1
    ensures var r := Execute(w, tx, h, p).0.accounts; r.Keys == w.accounts.Keys && AccountBefore(tx, a, w.accounts[a], r[a])
  {
    match tx.kind
    case TrxTransfer => TransferLeaves(w.accounts, tx, a);
    case TrxWithdraw(_) => WithdrawalLeaves(w, tx, h, a);
    case _ =>
  }

  lemma ChargeLeaves(r: World, tx: Tx, fee: nat, a: Address, was: Account)
    requires tx.from in r.accounts && fee <= r.accounts[tx.from].balance && a in r.accounts
    requires AccountBefore(tx, a, was, r.accounts[a])
    ensures AccountAfter(tx, fee, a, was, ChargedWorld(r, tx.from, fee).accounts[a])
  {
  }

  /**
   What an executed transaction leaves of every account: the receiver of a transfer has the amount, the sender has
   given it and the fee, and the nonce has moved on; a withdrawal brings the sender the reward, a document
   transaction their document. Every other account is as it was; only the receiver's may be new.
   */
  lemma EveryAccountAfter(c: Chain, tx: Tx, a: Address, h: int) returns (d: Chain, fee: nat)
    requires h == c.height + 1 && RewardsUpTo(c.world.rewards, h) && ParamsOk(c.params) && Deliver(c, tx).1 == Executed
    requires TotalBalance(c.world.accounts) + TakenBy(tx) < U256
    ensures d == Deliver(c, tx).0 && fee == tx.gasPrice * tx.gas && d.fees == Add256(c.fees, fee)
    ensures d.world.accounts.Keys == c.world.accounts.Keys + {tx.to}
    ensures a in d.world.accounts ==> AccountAfter(tx, fee, a, AccountAt(c.world.accounts, a), d.world.accounts[a])
  {
    var w := Receiving(c, tx);
    var r := ExecutedRan(c, tx, h);
    NewAccountAddsNothing(c.world.accounts, tx.to);
    ValidatedCanPay(w.accounts[tx.from], tx, c.params);
    d, fee := Deliver(c, tx).0, Fee(tx);
    ExecutionLeaves(w, tx, h, c.params, tx.from);
    if a in w.accounts {
      ExecutionLeaves(w, tx, h, c.params, a);
      ChargeLeaves(r, tx, fee, a, w.accounts[a]);
    }
  }

  /** A transfer to somebody else takes the amount and the fee from the sender and brings the amount; one to oneself costs the fee. */
  lemma TransferReaches(c: Chain, tx: Tx, h: int) returns (d: Chain, fee: nat)
    requires h == c.height + 1 && RewardsUpTo(c.world.rewards, h) && ParamsOk(c.params) && Deliver(c, tx).1 == Executed
    requires tx.kind.TrxTransfer? && TotalBalance(c.world.accounts) < U256
    ensures d == Deliver(c, tx).0 && fee == tx.gasPrice * tx.gas
    ensures {tx.from, tx.to} <= d.world.accounts.Keys
    ensures tx.from != tx.to ==>
              && d.world.accounts[tx.to].balance == AccountAt(c.world.accounts, tx.to).balance + tx.amount
              && d.world.accounts[tx.from].balance == AccountAt(c.world.accounts, tx.from).balance - tx.amount - fee
    ensures tx.from == tx.to ==> d.world.accounts[tx.from].balance == AccountAt(c.world.accounts, tx.from).balance - fee
    ensures d.world == c.world.(accounts := d.world.accounts)
  {
    d, fee := EveryAccountAfter(c, tx, tx.to, h);
    var _, _ := EveryAccountAfter(c, tx, tx.from, h);
    OtherLedgersAfter(c, tx, h);
  }

  // ----- Delegatees, frozen stakes and rewards -----

  /** Transfers, documents and governance leave delegatees, frozen stakes and rewards alone. */
  lemma OtherLedgersAfter(c: Chain, tx: Tx, h: int)
    requires h == c.height + 1 && RewardsUpTo(c.world.rewards, h) && Deliver(c, tx).1 == Executed
    requires tx.kind.TrxTransfer? || tx.kind.TrxSetDoc? || tx.kind.TrxGovernance?
    ensures var d := Deliver(c, tx).0; d.world == c.world.(accounts := d.world.accounts)
  {
    var _ := ExecutedRan(c, tx, h);
  }

  /** The delegatee that a staking is for: a new one of the sender, when none can be read. */
  function StakedOn(w: World, tx: Tx): Delegatee
  {
    match w.delegatees.Get(tx.to)
    case None => Delegatee(tx.from, tx.pubKey, 0, 0, 0, [], [])
    case Some(d) => d
  }

  lemma CoinsOf(amount: nat)
    requires amount < MAX_SUPPLY
    ensures AmountToPower(amount) == Some(amount / AMOUNT_PER_POWER)
  {
  }

  /**
   An executed staking adds one stake to the delegatee of its receiver and changes no other delegatee: it belongs to
   the sender, has one power per coin and begins in the next block.
   */
  lemma DelegateeAfterStaking(c: Chain, tx: Tx, h: int) returns (d: Chain, s: Stake)
    requires h == c.height + 1 && RewardsUpTo(c.world.rewards, h) && Deliver(c, tx).1 == Executed
    requires tx.kind.TrxStaking? && TotalBalance(c.world.accounts) < MAX_SUPPLY
    ensures d == Deliver(c, tx).0
    ensures s == Stake(tx.from, tx.to, tx.hash, h + 1, 0, tx.amount / AMOUNT_PER_POWER) && tx.amount == s.power * AMOUNT_PER_POWER
    ensures d.world.frozen == c.world.frozen && d.world.rewards == c.world.rewards
    ensures var was := StakedOn(c.world, tx);
            d.world.delegatees == c.world.delegatees.Set(tx.to, was.(
              stakes := was.stakes + [s], totalPower := was.totalPower + s.power,
              selfPower := was.selfPower + if tx.from == tx.to then s.power else 0))
  {
    d := Deliver(c, tx).0;
    s := Stake(tx.from, tx.to, tx.hash, h + 1, 0, tx.amount / AMOUNT_PER_POWER);
    var r := ExecutedRan(c, tx, h);
    NewAccountAddsNothing(c.world.accounts, tx.to);
    TotalIsNonNegative(Receiving(c, tx).accounts);
    CoinsOf(tx.amount);
  }

  lemma RewardLeft(w: World, from: Address, request: Amount256, h: int, was: Reward)
    requires from in w.accounts && RewardsUpTo(w.rewards, h) && w.rewards.Get(from) == Some(was) && request <= was.cumulated < U256
    ensures ExeWithdraw(w, from, request, h).1 ==>
              ExeWithdraw(w, from, request, h).0.rewards == w.rewards.Set(from, was.(
                cumulated := was.cumulated - request, height := h,
                withdrawn := Add256(if was.height == h then was.withdrawn else 0, request)))
  {
    assert Sub256(was.cumulated, request) == was.cumulated - request;
    assert Add256(0, request) == request;
  }

  /** An executed withdrawal takes what was asked for from the sender's reward and touches no other reward. */
  lemma RewardAfterWithdrawal(c: Chain, tx: Tx, h: int) returns (d: Chain, was: Reward)
    requires h == c.height + 1 && RewardsUpTo(c.world.rewards, h) && Deliver(c, tx).1 == Executed && tx.kind.TrxWithdraw?
    requires forall a | a in c.world.rewards.working :: c.world.rewards.working[a].cumulated < U256
    ensures d == Deliver(c, tx).0 && Lookup(c.world.rewards.working, tx.from) == Some(was)
    ensures d.world.delegatees == c.world.delegatees && d.world.frozen == c.world.frozen
    ensures tx.kind.request <= was.cumulated
    ensures d.world.rewards == c.world.rewards.Set(tx.from, was.(
              cumulated := was.cumulated - tx.kind.request, height := h,
              withdrawn := Add256(if was.height == h then was.withdrawn else 0, tx.kind.request)))
  {
    d, was := Deliver(c, tx).0, c.world.rewards.working[tx.from];
    var _ := ExecutedRan(c, tx, h);
    RewardLeft(Receiving(c, tx), tx.from, tx.kind.request, h, was);
  }

  /** What is left of a delegatee when one of its stakes is taken away. */
  ghost predicate WithoutOne(d: Delegatee, s: Stake, left: Delegatee)
  {
    && multiset(left.stakes) == multiset(d.stakes) - multiset{s}
    && left == d.(stakes := left.stakes, totalPower := d.totalPower - s.power,
                  selfPower := d.selfPower - if s.from == s.to then s.power else 0)
  }

  /** The stakes are in the frozen ledger until the height given, and no other entry has changed. */
  ghost predicate FrozenUntil(f: Overlay<Hash, Stake>, f': Overlay<Hash, Stake>, stakes: seq<Stake>, rh: int)
  {
    && f'.committed == f.committed && f'.dead == f.dead
    && (forall x | x in stakes :: Lookup(f'.working, x.txHash) == Some(x.(refundHeight := rh)))
    && (forall k | k !in Hashes(stakes) :: Lookup(f'.working, k) == Lookup(f.working, k))
  }

  lemma {:induction false} FreezeIsUntil(f: Overlay<Hash, Stake>, stakes: seq<Stake>, rh: int)
    requires DistinctHashes(stakes)
    ensures FrozenUntil(f, Freeze(f, stakes, rh), stakes, rh)
  {
    var r := Freeze(f, stakes, rh);
    FreezeSets(f, stakes, rh);
    forall x | x in stakes ensures Lookup(r.working, x.txHash) == Some(x.(refundHeight := rh)) { FreezeAt(f, stakes, rh, x); }
    forall k | k !in Hashes(stakes) ensures Lookup(r.working, k) == Lookup(f.working, k) { FreezeOnlyHashes(f, stakes, rh, k); }
  }

  lemma {:induction false} FreezeSets(f: Overlay<Hash, Stake>, stakes: seq<Stake>, rh: int)
    ensures Freeze(f, stakes, rh) == f.(working := Freeze(f, stakes, rh).working)
  {
    if stakes != [] { FreezeSets(f, stakes[..|stakes| - 1], rh); }
  }

  /** The frozen stakes do not depend on which of them was frozen first. */
  lemma UntilSameElements(f: Overlay<Hash, Stake>, f': Overlay<Hash, Stake>, a: seq<Stake>, b: seq<Stake>, rh: int)
    requires FrozenUntil(f, f', a, rh) && forall x :: x in a <==> x in b
    ensures FrozenUntil(f, f', b, rh)
  {
  }

  lemma RemoveAtElements<T>(s: seq<T>, i: nat)
    requires i < |s|
    ensures multiset(s[..i] + s[i + 1..]) == multiset(s) - multiset{s[i]}
    ensures forall x :: x in s <==> x == s[i] || x in s[..i] + s[i + 1..]
  {
    assert s == s[..i] + [s[i]] + s[i + 1..];
  }

  lemma TakeOne(was: Delegatee, k: Hash, s: Stake, left: Delegatee)
    requires FindStake(was.stakes, k) >= 0 && s == was.stakes[FindStake(was.stakes, k)] && left == WithoutStake(was, k)
    ensures WithoutOne(was, s, left)
    ensures forall x :: x in was.stakes <==> x == s || x in left.stakes
  {
    RemoveAtElements(was.stakes, FindStake(was.stakes, k));
  }

  lemma DistinctCons(s: Stake, rest: seq<Stake>)
    requires DistinctHashes(rest) && s.txHash !in Hashes(rest)
    ensures DistinctHashes([s] + rest)
  {
    forall i | 0 <= i < |rest| ensures rest[i].txHash != s.txHash { assert rest[i] in rest; }
  }

  lemma LeftIsSound(was: Delegatee, k: Hash, s: Stake, left: Delegatee)
    requires Sound(was) && FindStake(was.stakes, k) >= 0 && s == was.stakes[FindStake(was.stakes, k)] && left == WithoutStake(was, k)
    ensures DistinctHashes([s] + left.stakes) && 0 <= left.selfPower <= left.totalPower == SumPower(left.stakes)
  {
    RemoveByHashRemovesOne(was.stakes, k);
    DistinctCons(s, left.stakes);
    DelStakeKeepsSound(was, k);
    SelfWithinTotal(left.stakes, left.addr);
  }

  lemma SetOneIsUntil(f: Overlay<Hash, Stake>, s: Stake, rh: int)
    ensures FrozenUntil(f, f.Set(s.txHash, s.(refundHeight := rh)), [s], rh)
  {
    HashesCons(s, []);
    assert Hashes([]) == {} && [s] + [] == [s];
  }

  lemma FreezeRestIsUntil(f: Overlay<Hash, Stake>, s: Stake, rest: seq<Stake>, all: seq<Stake>, rh: int)
    requires DistinctHashes([s] + rest) && forall x :: x in all <==> x == s || x in rest
    ensures FrozenUntil(f, Freeze(f.Set(s.txHash, s.(refundHeight := rh)), rest, rh), all, rh)
  {
    FreezeCons(f, s, rest, rh);
    FreezeIsUntil(f, [s] + rest, rh);
    UntilSameElements(f, Freeze(f, [s] + rest, rh), [s] + rest, all, rh);
  }

  /** What unstaking one of its stakes does to a delegatee: without self power left, all its stakes go. */
  lemma UnstakedIs(w: World, to: Address, k: Hash, rh: int, was: Delegatee) returns (r: World, s: Stake, left: Delegatee)
    requires w.delegatees.Get(to) == Some(was) && Sound(was) && FindStake(was.stakes, k) >= 0
    ensures r == Unstaked(w, to, k, rh) && s == was.stakes[FindStake(was.stakes, k)] && WithoutOne(was, s, left)
    ensures left.selfPower != 0 ==>
              r.delegatees.working == w.delegatees.working[to := left] && FrozenUntil(w.frozen, r.frozen, [s], rh)
    ensures left.selfPower == 0 ==>
              r.delegatees.working == w.delegatees.working - {to} && FrozenUntil(w.frozen, r.frozen, was.stakes, rh)
  {
    s, left := was.stakes[FindStake(was.stakes, k)], WithoutStake(was, k);
    TakeOne(was, k, s, left);
    LeftIsSound(was, k, s, left);
    r := Unstaked(w, to, k, rh);
    if left.selfPower == 0 {
      FreezeRestIsUntil(w.frozen, s, left.stakes, was.stakes, rh);
    } else {
      SetOneIsUntil(w.frozen, s, rh);
    }
  }

  /**
   An executed unstaking takes the sender's stake from the delegatee and freezes it for the lazy reward blocks. A
   delegatee without self power left goes altogether, and all its stakes are frozen as long.
   */
  lemma DelegateeAfterUnstaking(c: Chain, tx: Tx, h: int, rh: int) returns (d: Chain, was: Delegatee, s: Stake, left: Delegatee)
    requires h == c.height + 1 && rh == h + c.params.lazyRewardBlocks && RewardsUpTo(c.world.rewards, h) && Deliver(c, tx).1 == Executed
    requires tx.kind.TrxUnstaking? && AllSound(c.world.delegatees.working)
    ensures d == Deliver(c, tx).0 && d.world.rewards == c.world.rewards
    ensures Lookup(c.world.delegatees.working, tx.to) == Some(was)
    ensures s in was.stakes && s.txHash == tx.kind.stakeHash && s.from == tx.from && WithoutOne(was, s, left)
    ensures left.selfPower != 0 ==>
              && d.world.delegatees.working == c.world.delegatees.working[tx.to := left]
              && FrozenUntil(c.world.frozen, d.world.frozen, [s], rh)
    ensures left.selfPower == 0 ==>
              && d.world.delegatees.working == c.world.delegatees.working - {tx.to}
              && FrozenUntil(c.world.frozen, d.world.frozen, was.stakes, rh)
  {
    d := Deliver(c, tx).0;
    var w, k := Receiving(c, tx), tx.kind.stakeHash;
    var r := ExecutedRan(c, tx, h);
    ExecuteIsUnstaking(w, tx, h, c.params, rh);
    was := w.delegatees.working[tx.to];
    r, s, left := UnstakedIs(w, tx.to, k, rh, was);
  }

  // ----- Which transactions are executed -----

  /** The sender has the next nonce and the coins, the fee is the price of enough gas, and the signature is the sender's. */
  predicate IsPaidFor(c: Chain, tx: Tx)
  {
    && tx.signatureOk && |tx.from| == 20 && |tx.to| == 20
    && tx.gas < I63 && tx.gasPrice == c.params.gasPrice && (c.params.gasPrice == 0 || tx.gas >= c.params.minTrxGas)
    && tx.from in c.world.accounts && tx.nonce == c.world.accounts[tx.from].nonce
    && tx.amount + tx.gasPrice * tx.gas <= c.world.accounts[tx.from].balance
  }

  function Coins(amount: nat): nat
  {
    amount / AMOUNT_PER_POWER
  }

  /** An own stake reaches the minimum of a validator with the own stakes there are. */
  predicate OwnStakeSuffices(c: Chain, tx: Tx)
  {
    var found := c.world.delegatees.Get(tx.to);
    Coins(tx.amount) + (if found.Some? then found.value.selfPower else 0) >= Coins(c.params.minValidatorStake)
  }

  /** A delegated stake reaches its minimum, and leaves the validator its share of the power. */
  predicate DelegationSuffices(c: Chain, tx: Tx)
  {
    var found := c.world.delegatees.Get(tx.to);
    && found.Some? && Coins(tx.amount) >= Coins(c.params.minDelegatorStake)
    && found.value.selfPower * 100 >= c.params.minSelfStakeRatio * (found.value.totalPower + Coins(tx.amount))
  }

  /** What each kind of transaction asks for besides. */
  ghost predicate IsAdmissible(c: Chain, tx: Tx)
  {
    match tx.kind
    case TrxTransfer => true
    case TrxSetDoc(name, url) => |name| <= 2048 && |url| <= 2048
    case TrxGovernance => tx.handlerOk
    case TrxStaking =>
      && tx.handlerOk && tx.amount > 0 && tx.amount % AMOUNT_PER_POWER == 0
      && if tx.from == tx.to then OwnStakeSuffices(c, tx) else DelegationSuffices(c, tx)
    case TrxUnstaking(k) =>
      && tx.handlerOk && |k| == 32 && c.world.delegatees.Get(tx.to).Some?
      && exists s | s in c.world.delegatees.Get(tx.to).value.stakes :: s.txHash == k && s.from == tx.from
    case TrxWithdraw(request) =>
      tx.amount == 0 && tx.from in c.world.rewards.working && request <= c.world.rewards.working[tx.from].cumulated
  }

  lemma EnoughGas(price: nat, gas: nat, min: nat)
    ensures price * gas >= min * price <==> price == 0 || gas >= min
  {
    if price > 0 {
      if gas >= min { ProductBound(min, price, gas, price); } else { ProductBound(gas + 1, price, min, price); }
    }
  }

  lemma MinimumFits(price: nat, min: nat)
    requires price < MAX_PRICE && min < U64
    ensures Mul256(min, price) == min * price
  {
    MinimumBelow(price, min);
    BelowWrap(min * price);
  }

  lemma MinimumBelow(price: nat, min: nat)
    requires price < MAX_PRICE && min < U64
    ensures min * price < U256
  {
    ProductBound(min, price, U64, MAX_PRICE - 1);
  }

  lemma BelowWrap(x: nat)
    requires x < U256
    ensures x % U256 == x
  {
  }

  lemma PaidForIs(c: Chain, tx: Tx)
    requires ParamsOk(c.params) && c.params.minTrxGas < U64 && TotalBalance(c.world.accounts) < MAX_SUPPLY
    ensures IsPaidFor(c, tx) <==>
            tx.from in c.world.accounts && CommonValidation0(tx, c.params) && CommonValidation1(c.world.accounts[tx.from], tx)
  {
    if tx.from in c.world.accounts && tx.gasPrice == c.params.gasPrice && tx.gas < I63 {
      TotalIsNonNegative(c.world.accounts);
      FeeFits(tx.gasPrice, tx.gas);
      EnoughGas(tx.gasPrice, tx.gas, c.params.minTrxGas);
      MinimumFits(c.params.gasPrice, c.params.minTrxGas);
      assert Fee(tx) == tx.gasPrice * tx.gas;
    }
  }

  lemma StakeAdmissible(c: Chain, tx: Tx)
    requires tx.kind.TrxStaking? && AllSound(c.world.delegatees.working)
    requires tx.amount < MAX_SUPPLY && c.params.minValidatorStake < MAX_SUPPLY && c.params.minDelegatorStake < MAX_SUPPLY
    ensures IsAdmissible(c, tx) <==> ValidStake(Receiving(c, tx), tx, c.params)
  {
    CoinsOf(tx.amount);
    CoinsOf(c.params.minValidatorStake);
    CoinsOf(c.params.minDelegatorStake);
    if tx.from != tx.to && c.world.delegatees.Get(tx.to).Some? && tx.amount > 0 && tx.amount % AMOUNT_PER_POWER == 0 {
      var d := c.world.delegatees.Get(tx.to).value;
      SelfWithinTotal(d.stakes, d.addr);
      QuoAtLeast(d.selfPower * 100, d.totalPower + Coins(tx.amount), c.params.minSelfStakeRatio);
    }
  }

  lemma UnstakeAdmissible(c: Chain, tx: Tx)
    requires tx.kind.TrxUnstaking? && AllSound(c.world.delegatees.working)
    ensures IsAdmissible(c, tx) <==> CanUnstake(Receiving(c, tx), tx.from, tx.to, tx.kind.stakeHash) && tx.handlerOk
  {
    var found := c.world.delegatees.Get(tx.to);
    if found.Some? {
      var i := FindStake(found.value.stakes, tx.kind.stakeHash);
      if i >= 0 { assert found.value.stakes[i] in found.value.stakes; }
    }
  }

  lemma AdmissibleIs(c: Chain, tx: Tx)
    requires AllSound(c.world.delegatees.working) && c.world.rewards.dead == {}
    requires tx.amount < MAX_SUPPLY && c.params.minValidatorStake < MAX_SUPPLY && c.params.minDelegatorStake < MAX_SUPPLY
    ensures IsAdmissible(c, tx) <==> ValidByKind(Receiving(c, tx), tx, c.params)
  {
    match tx.kind
    case TrxStaking => StakeAdmissible(c, tx);
    case TrxUnstaking(_) => UnstakeAdmissible(c, tx);
    case _ =>
  }

  /** The fields of the parameters that are 64 bits wide fit, and the minimal stakes are amounts that there can be. */
  predicate ParamsFit(p: GovParams)
  {
    ParamsOk(p) && p.minTrxGas < U64 && p.minValidatorStake < MAX_SUPPLY && p.minDelegatorStake < MAX_SUPPLY
  }

  /** A transaction is executed exactly when it is paid for and what its kind asks for is there; otherwise it is rejected. */
  lemma ExecutedExactly(c: Chain, tx: Tx)
    requires ChainInv(c) && ParamsFit(c.params) && Total(c) < MAX_SUPPLY && NoCollision(c.used, tx)
    ensures Deliver(c, tx).1 == if IsPaidFor(c, tx) && IsAdmissible(c, tx) then Executed else Rejected
  {
    var _, o := DeliverLaw(c, tx);
    PartsWithinSupply(c.world, Taken(c));
    ValidExactly(c, tx);
    ExecutedIfValid(c, tx, o);
  }

  lemma ValidExactly(c: Chain, tx: Tx)
    requires ParamsFit(c.params) && TotalBalance(c.world.accounts) < MAX_SUPPLY
    requires AllSound(c.world.delegatees.working) && c.world.rewards.dead == {}
    ensures IsPaidFor(c, tx) && IsAdmissible(c, tx) <==> tx.from in c.world.accounts && Validate(Receiving(c, tx), tx, c.params)
  {
    PaidForIs(c, tx);
    if IsPaidFor(c, tx) {
      PaidIsLess(tx.amount, tx.gasPrice, tx.gas, c.world.accounts[tx.from].balance);
      TotalIsNonNegative(c.world.accounts);
      AdmissibleIs(c, tx);
    }
  }

  lemma PaidIsLess(amount: nat, price: nat, gas: nat, balance: nat)
    requires amount + price * gas <= balance
    ensures amount <= balance
  {
    ProductBound(0, 0, price, gas);
  }

  lemma ExecutedIfValid(c: Chain, tx: Tx, o: Delivery)
    requires RewardsUpTo(c.world.rewards, c.height + 1) && o == Deliver(c, tx).1 && (o == Rejected || o == Executed)
    ensures o == Executed <==> tx.from in c.world.accounts && Validate(Receiving(c, tx), tx, c.params)
  {
  }

  // ----- The proposer -----

  /** The fees of a block go to its proposer, whose account is made if need be, and to nobody else. */
  lemma ProposerIsPaid(c: Chain, proposer: Address, a: Address)
    requires TotalBalance(c.world.accounts) + c.fees < U256 && c.fees < SIGN_BIT
    ensures PayProposer(c, None).world == c.world
    ensures var d := PayProposer(c, Some(proposer));
            && d.fees == 0 && d.world == c.world.(accounts := d.world.accounts)
            && d.world.accounts.Keys == c.world.accounts.Keys + (if c.fees == 0 then {} else {proposer})
            && (a in d.world.accounts ==>
                  var was := AccountAt(c.world.accounts, a);
                  d.world.accounts[a] == was.(balance := was.balance + if a == proposer then c.fees else 0))
  {
    var book := FindOrNew(c.world.accounts, proposer);
    NewAccountAddsNothing(c.world.accounts, proposer);
    CreditAdds(book, proposer, c.fees);
  }
}
