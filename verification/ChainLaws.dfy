/**
 What every stage of a block keeps: where every coin goes, that a validated transaction is
 carried out, and that none is carried out twice.
 */
module ChainLaws {
  import opened Prelude
  import opened Amounts
  import opened Delegatees
  import opened Accounts
  import opened GovernanceParams
  import opened Staking
  import opened Conservation
  import opened Chains

  /** 2^192: below this gas price a fee stays below 2^255. */
  const MAX_PRICE := 0x1_00000000_00000000_00000000_00000000_00000000_00000000

  /** What the results ask of the governance parameters. */
  predicate ParamsOk(p: GovParams)
  {
    0 <= p.slashRatio <= 100 && p.gasPrice < MAX_PRICE
  }

  ghost function Total(c: Chain): int
  {
    Supply(c.world) + c.fees
  }

  /** All power that is gone: by slashes, by a second staking on a re-made delegatee and by stakes frozen under the same hash. */
  function Gone(b: Books): int
  {
    b.destroyed + b.overwritten + b.collided
  }

  /** Conserved: the total, with the power that is gone and the unpaid fees added back and what was issued taken out. */
  ghost function Accounted(c: Chain): int
  {
    Total(c) + AMOUNT_PER_POWER * Gone(c.books) + c.books.unpaidFees - c.books.issued
  }

  /** Conserved: the rewards to be had, with what was withdrawn added back and what was issued taken out. */
  ghost function RewardsAccounted(c: Chain): int
  {
    SumMap(Cumulated, c.world.rewards.working) + c.books.withdrawn - c.books.issued
  }

  ghost predicate SameAccounting(c: Chain, d: Chain)
  {
    Accounted(d) == Accounted(c) && RewardsAccounted(d) == RewardsAccounted(c)
  }

  /** Every executed (sender, nonce) lies below the sender's nonce, and none is executed twice. */
  ghost predicate NoncesOk(c: Chain)
  {
    && Distinct(c.executed)
    && (forall e | e in c.executed :: e.0 in c.world.accounts && e.1 < c.world.accounts[e.0].nonce)
    && (forall k | k in c.used :: c.used[k] in c.executed)
  }

  /** The hashes that a stake can have by now. */
  function Taken(c: Chain): set<Hash>
  {
    c.used.Keys + {GENESIS_HASH}
  }

  /** The hash of a transaction is not that of an executed one with another sender or nonce, nor the one of genesis. */
  predicate NoCollision(used: map<Hash, (Address, nat)>, tx: Tx)
  {
    tx.hash != GENESIS_HASH && (tx.hash in used ==> used[tx.hash] == (tx.from, tx.nonce))
  }

  /** A transaction that has its sender's next nonce has a hash that is not taken. */
  lemma NextIsFresh(c: Chain, tx: Tx)
    requires NoncesOk(c) && NoCollision(c.used, tx) && tx.from in c.world.accounts && c.world.accounts[tx.from].nonce == tx.nonce
    ensures tx.hash !in Taken(c)
  {
  }

  ghost predicate ChainInv(c: Chain)
  {
    && Good(c.world, Taken(c))
    && RewardsUpTo(c.world.rewards, c.height + 1)
    && HistorySound(c.history) && |c.history| == c.height
    && NoncesOk(c)
  }

  // ----- Accounts -----

  /** No account is lost and no nonce goes back. */
  ghost predicate AccountsGrow(a: Book, b: Book)
  {
    a.Keys <= b.Keys && forall x | x in a :: a[x].nonce <= b[x].nonce
  }

  lemma OwnersGrow(w: World, book: Book, used: set<Hash>)
    requires Good(w, used) && w.accounts.Keys <= book.Keys
    ensures Good(w.(accounts := book), used)
  {
  }

  lemma NoncesKept(c: Chain, d: Chain)
    requires NoncesOk(c) && d.executed == c.executed && d.used == c.used && AccountsGrow(c.world.accounts, d.world.accounts)
    ensures NoncesOk(d)
  {
  }

  // ----- One transaction -----

  /** A validated transaction leaves room for its amount and its fee: the sum does not wrap around. */
  lemma ValidatedCanPay(sender: Account, tx: Tx, p: GovParams)
    requires ParamsOk(p) && CommonValidation0(tx, p) && CommonValidation1(sender, tx)
    ensures Fee(tx) == tx.gasPrice * tx.gas && Fee(tx) + tx.amount <= sender.balance && Fee(tx) < SIGN_BIT
  {
    FeeFits(tx.gasPrice, tx.gas);
  }

  lemma ProductBound(a: nat, b: nat, c: nat, d: nat)
    requires a <= c && b <= d
    ensures a * b <= c * d
  {
    assert a * b <= c * b;
    assert c * b <= c * d;
  }

  lemma FeeFits(price: nat, gas: nat)
    requires price < MAX_PRICE && gas < I63
    ensures price * gas < SIGN_BIT
  {
    ProductBound(price, gas, MAX_PRICE - 1, I63);
  }

  lemma TransferLaw(book: Book, from: Address, to: Address, amount: nat, fee: nat)
    requires from in book && to in book && TotalBalance(book) < U256 && fee + amount <= book[from].balance
    ensures var (r, ok) := ExeTransfer(book, from, to, amount);
            && ok && TotalBalance(r) == TotalBalance(book) && AccountsGrow(book, r)
            && fee <= r[from].balance && r[from].nonce == book[from].nonce
  {
    DebitSubtracts(book, from, amount);
    CreditAdds(Debit(book, from, amount), to, amount);
  }

  /** A carried-out transaction keeps the world good, moves coins as it says and leaves the sender its fee. */
  ghost predicate Carried(w: World, r: World, from: Address, fee: nat, lost: int, taken: int, h: int, used: set<Hash>)
  {
    && Good(r, used) && RewardsUpTo(r.rewards, h)
    && Supply(r) == Supply(w) - AMOUNT_PER_POWER * lost
    && SumMap(Cumulated, r.rewards.working) == SumMap(Cumulated, w.rewards.working) - taken
    && AccountsGrow(w.accounts, r.accounts)
    && from in w.accounts && fee <= r.accounts[from].balance && r.accounts[from].nonce == w.accounts[from].nonce
  }

  lemma TransferCarries(w: World, from: Address, to: Address, amount: nat, fee: nat, h: int, used: set<Hash>)
    requires Good(w, used) && RewardsUpTo(w.rewards, h) && Supply(w) < MAX_SUPPLY
    requires from in w.accounts && to in w.accounts && fee + amount <= w.accounts[from].balance
    ensures var (book, ok) := ExeTransfer(w.accounts, from, to, amount);
            ok && Carried(w, w.(accounts := book), from, fee, 0, 0, h, used)
  {
    PartsWithinSupply(w, used);
    TransferLaw(w.accounts, from, to, amount, fee);
    OwnersGrow(w, ExeTransfer(w.accounts, from, to, amount).0, used);
  }

  lemma SetDocCarries(w: World, from: Address, name: string, url: string, fee: nat, h: int, used: set<Hash>)
    requires Good(w, used) && RewardsUpTo(w.rewards, h) && from in w.accounts && fee <= w.accounts[from].balance
    ensures Carried(w, w.(accounts := w.accounts[from := w.accounts[from].(name := name, docURL := url)]), from, fee, 0, 0, h, used)
  {
    var book := w.accounts[from := w.accounts[from].(name := name, docURL := url)];
    SumMapUpdate(Balance, w.accounts, from, book[from]);
    OwnersGrow(w, book, used);
  }

  lemma StakeCarries(w: World, from: Address, to: Address, amount: nat, power: nat, hash: Hash, pubKey: Bytes, fee: nat, h: int,
                     used: set<Hash>) returns (r: World)
    requires Good(w, used) && RewardsUpTo(w.rewards, h) && hash !in used
    requires from in w.accounts && fee + amount <= w.accounts[from].balance && amount == AMOUNT_PER_POWER * power
    requires from == to || w.delegatees.Get(to).Some?
    ensures r == Staked(w, from, to, amount, power, hash, pubKey, h)
    ensures Carried(w, r, from, fee, Overwritten(w, to), 0, h, used + {hash})
  {
    r := Staked(w, from, to, amount, power, hash, pubKey, h);
    StakingLaw(w, from, to, amount, power, hash, pubKey, h);
    StakingKeepsGood(w, from, to, amount, power, hash, pubKey, h, used);
  }

  lemma UnstakeCarries(w: World, from: Address, to: Address, stakeHash: Hash, refundHeight: int, fee: nat, h: int,
                       used: set<Hash>) returns (r: World, lost: int)
    requires Good(w, used) && RewardsUpTo(w.rewards, h) && from in w.accounts && fee <= w.accounts[from].balance
    requires CanUnstake(w, from, to, stakeHash)
    ensures ExeUnstaking(w, from, to, stakeHash, refundHeight) == (r, true)
    ensures lost == Clashed(w.frozen, UnstakedWith(w.delegatees.working[to], stakeHash), refundHeight)
    ensures Carried(w, r, from, fee, lost, 0, h, used)
  {
    r := Unstaked(w, to, stakeHash, refundHeight);
    lost := Clashed(w.frozen, UnstakedWith(w.delegatees.working[to], stakeHash), refundHeight);
    UnstakeLaw(w, from, to, stakeHash, refundHeight, used);
  }

  lemma WithdrawCarries(w: World, from: Address, request: Amount256, fee: nat, h: int, used: set<Hash>)
    requires Good(w, used) && RewardsUpTo(w.rewards, h) && Supply(w) < MAX_SUPPLY
    requires from in w.accounts && fee <= w.accounts[from].balance
    requires from in w.rewards.working && request <= w.rewards.working[from].cumulated
    ensures var (r, ok) := ExeWithdraw(w, from, request, h);
            ok && Carried(w, r, from, fee, 0, request, h, used)
  {
    PartsWithinSupply(w, used);
    SumMapNonNegative(Cumulated, w.rewards.working);
    SumMapBounds(Cumulated, w.rewards.working, from);
    WithdrawConservesExactly(w, from, request, h, used);
    CreditAdds(w.accounts, from, request);
  }

  /** The power that an executed transaction loses. */
  function LostBy(w: World, tx: Tx, refundHeight: int): int
  {
    match tx.kind
    case TrxStaking => Overwritten(w, tx.to)
    case TrxUnstaking(stakeHash) =>
      if CanUnstake(w, tx.from, tx.to, stakeHash)
      then Clashed(w.frozen, UnstakedWith(w.delegatees.working[tx.to], stakeHash), refundHeight) else 0
    case _ => 0
  }

  function TakenBy(tx: Tx): int
  {
    if tx.kind.TrxWithdraw? then tx.kind.request else 0
  }

  lemma CarriedWithMore(w: World, r: World, from: Address, fee: nat, lost: int, taken: int, h: int, used: set<Hash>, more: set<Hash>)
    requires Carried(w, r, from, fee, lost, taken, h, used)
    ensures Carried(w, r, from, fee, lost, taken, h, used + more)
  {
    UsedGrows(r, used, more);
  }

  /** What the execution lemmas conclude about a transaction. */
  ghost predicate CarriesTx(w: World, tx: Tx, fee: nat, h: int, p: GovParams, rh: int, used: set<Hash>)
    requires tx.from in w.accounts && tx.to in w.accounts && RewardsUpTo(w.rewards, h)
  {
    var (r, ok) := Execute(w, tx, h, p);
    ok && Carried(w, r, tx.from, fee, LostBy(w, tx, rh), TakenBy(tx), h, used + {tx.hash})
  }

  lemma AccountTxCarries(w: World, tx: Tx, fee: nat, h: int, p: GovParams, rh: int, used: set<Hash>)
    requires Good(w, used) && RewardsUpTo(w.rewards, h) && Supply(w) < MAX_SUPPLY
    requires tx.from in w.accounts && tx.to in w.accounts && (tx.kind.TrxTransfer? || tx.kind.TrxSetDoc? || tx.kind.TrxGovernance?)
    requires fee + tx.amount <= w.accounts[tx.from].balance
    ensures CarriesTx(w, tx, fee, h, p, rh, used)
  {
    var r := Execute(w, tx, h, p).0;
    if tx.kind.TrxTransfer? {
      TransferCarries(w, tx.from, tx.to, tx.amount, fee, h, used);
    } else if tx.kind.TrxSetDoc? {
      SetDocCarries(w, tx.from, tx.kind.name, tx.kind.url, fee, h, used);
    } else {
      assert r == w;
    }
    CarriedWithMore(w, r, tx.from, fee, 0, 0, h, used, {tx.hash});
  }

  lemma StakeTxCarries(w: World, tx: Tx, fee: nat, h: int, p: GovParams, rh: int, used: set<Hash>)
    requires Good(w, used) && RewardsUpTo(w.rewards, h) && Supply(w) < MAX_SUPPLY && tx.hash !in used
    requires tx.from in w.accounts && tx.to in w.accounts && tx.kind.TrxStaking?
    requires tx.amount % AMOUNT_PER_POWER == 0 && (tx.from == tx.to || w.delegatees.Get(tx.to).Some?)
    requires fee + tx.amount <= w.accounts[tx.from].balance
    ensures CarriesTx(w, tx, fee, h, p, rh, used)
  {
    PartsWithinSupply(w, used);
    TotalIsNonNegative(w.accounts);
    var power := tx.amount / AMOUNT_PER_POWER;
    assert AmountToPower(tx.amount) == Some(power);
    var r := StakeCarries(w, tx.from, tx.to, tx.amount, power, tx.hash, tx.pubKey, fee, h, used);
    assert Execute(w, tx, h, p) == (r, true);
  }

  lemma Conclude(w: World, tx: Tx, fee: nat, h: int, p: GovParams, rh: int, used: set<Hash>, r: World, lost: int, taken: int)
    requires tx.from in w.accounts && tx.to in w.accounts && RewardsUpTo(w.rewards, h)
    requires Execute(w, tx, h, p) == (r, true) && lost == LostBy(w, tx, rh) && taken == TakenBy(tx)
    requires Carried(w, r, tx.from, fee, lost, taken, h, used)
    ensures CarriesTx(w, tx, fee, h, p, rh, used)
  {
    CarriedWithMore(w, r, tx.from, fee, lost, taken, h, used, {tx.hash});
  }

  lemma ExecuteUnstake(w: World, tx: Tx, h: int, p: GovParams, rh: int, r: World, lost: int)
    requires rh == h + p.lazyRewardBlocks && tx.from in w.accounts && tx.to in w.accounts && RewardsUpTo(w.rewards, h)
    requires tx.kind.TrxUnstaking? && CanUnstake(w, tx.from, tx.to, tx.kind.stakeHash)
    requires ExeUnstaking(w, tx.from, tx.to, tx.kind.stakeHash, rh) == (r, true)
    requires lost == Clashed(w.frozen, UnstakedWith(w.delegatees.working[tx.to], tx.kind.stakeHash), rh)
    ensures Execute(w, tx, h, p) == (r, true) && lost == LostBy(w, tx, rh) && TakenBy(tx) == 0
  {
  }

  lemma UnstakeTxCarries(w: World, tx: Tx, fee: nat, h: int, p: GovParams, rh: int, used: set<Hash>)
    requires rh == h + p.lazyRewardBlocks && Good(w, used) && RewardsUpTo(w.rewards, h)
    requires tx.from in w.accounts && tx.to in w.accounts && tx.kind.TrxUnstaking? && CanUnstake(w, tx.from, tx.to, tx.kind.stakeHash)
    requires fee <= w.accounts[tx.from].balance
    ensures CarriesTx(w, tx, fee, h, p, rh, used)
  {
    var r, lost := UnstakeCarries(w, tx.from, tx.to, tx.kind.stakeHash, rh, fee, h, used);
    ExecuteUnstake(w, tx, h, p, rh, r, lost);
    Conclude(w, tx, fee, h, p, rh, used, r, lost, 0);
  }

  lemma WithdrawTxCarries(w: World, tx: Tx, fee: nat, h: int, p: GovParams, rh: int, used: set<Hash>)
    requires Good(w, used) && RewardsUpTo(w.rewards, h) && Supply(w) < MAX_SUPPLY
    requires tx.from in w.accounts && tx.to in w.accounts && tx.kind.TrxWithdraw? && ValidByKind(w, tx, p)
    requires fee <= w.accounts[tx.from].balance
    ensures CarriesTx(w, tx, fee, h, p, rh, used)
  {
    WithdrawCarries(w, tx.from, tx.kind.request, fee, h, used);
    CarriedWithMore(w, Execute(w, tx, h, p).0, tx.from, fee, 0, tx.kind.request, h, used, {tx.hash});
  }

  /** Executing a validated transaction of any kind succeeds. */
  lemma ExecuteCarries(w: World, tx: Tx, fee: nat, h: int, p: GovParams, rh: int, used: set<Hash>) returns (r: World, lost: int)
    requires Good(w, used) && RewardsUpTo(w.rewards, h) && Supply(w) < MAX_SUPPLY && tx.hash !in used
    requires tx.from in w.accounts && tx.to in w.accounts && ValidByKind(w, tx, p)
    requires fee + tx.amount <= w.accounts[tx.from].balance && rh == h + p.lazyRewardBlocks
    ensures Execute(w, tx, h, p) == (r, true) && lost == LostBy(w, tx, rh)
    ensures Carried(w, r, tx.from, fee, lost, TakenBy(tx), h, used + {tx.hash})
  {
    match tx.kind {
      case TrxStaking => StakeTxCarries(w, tx, fee, h, p, rh, used);
      case TrxUnstaking(_) => UnstakeTxCarries(w, tx, fee, h, p, rh, used);
      case TrxWithdraw(_) => WithdrawTxCarries(w, tx, fee, h, p, rh, used);
      case _ => AccountTxCarries(w, tx, fee, h, p, rh, used);
    }
    r, lost := Execute(w, tx, h, p).0, LostBy(w, tx, rh);
  }

  // ----- Delivery -----

  /** Taking the fee and moving the nonce on. */
  function ChargedWorld(w: World, from: Address, fee: nat): World
    requires from in w.accounts && fee <= w.accounts[from].balance
  {
    var a := w.accounts[from];
    w.(accounts := w.accounts[from := a.(balance := a.balance - fee, nonce := a.nonce + 1)])
  }

  lemma ChargeLaw(w: World, from: Address, fee: nat, used: set<Hash>) returns (r: World)
    requires Good(w, used) && from in w.accounts && fee <= w.accounts[from].balance
    ensures r == ChargedWorld(w, from, fee)
    ensures Good(r, used) && Supply(r) == Supply(w) - fee && r.rewards == w.rewards
    ensures AccountsGrow(w.accounts, r.accounts) && r.accounts[from].nonce == w.accounts[from].nonce + 1
  {
    r := ChargedWorld(w, from, fee);
    SumMapUpdate(Balance, w.accounts, from, r.accounts[from]);
    OwnersGrow(w, r.accounts, used);
  }

  lemma ExecutedOnce(c: Chain, d: Chain, from: Address, nonce: nat)
    requires NoncesOk(c) && from in c.world.accounts && c.world.accounts[from].nonce == nonce
    requires AccountsGrow(c.world.accounts, d.world.accounts) && d.world.accounts[from].nonce == nonce + 1
    requires d.executed == c.executed + [(from, nonce)]
    requires forall k | k in d.used :: (k in c.used && d.used[k] == c.used[k]) || d.used[k] == (from, nonce)
    ensures NoncesOk(d)
  {
    forall e | e in d.executed ensures e.0 in d.world.accounts && e.1 < d.world.accounts[e.0].nonce {
      assert e in c.executed || e == (from, nonce);
    }
    assert (from, nonce) !in c.executed;
  }

  /** The world in which a transaction is validated: the receiver's account exists. */
  function Receiving(c: Chain, tx: Tx): World
  {
    c.world.(accounts := FindOrNew(c.world.accounts, tx.to))
  }

  lemma ReceivingKeeps(c: Chain, tx: Tx)
    requires ChainInv(c)
    ensures var w := Receiving(c, tx);
            && Good(w, Taken(c)) && Supply(w) == Supply(c.world) && AccountsGrow(c.world.accounts, w.accounts)
            && RewardsUpTo(w.rewards, c.height + 1) && w.rewards == c.world.rewards && tx.to in w.accounts
            && forall a | a in c.world.accounts :: w.accounts[a] == c.world.accounts[a]
  {
    NewAccountAddsNothing(c.world.accounts, tx.to);
    OwnersGrow(c.world, FindOrNew(c.world.accounts, tx.to), Taken(c));
  }

  /** A transaction that is not carried out leaves no trace, except for a new empty account of its receiver. */
  ghost predicate Untouched(c: Chain, d: Chain, tx: Tx)
  {
    d == c.(world := if tx.from in c.world.accounts then Receiving(c, tx) else c.world)
  }

  lemma RejectionLaw(c: Chain, d: Chain, tx: Tx)
    requires ChainInv(c) && Untouched(c, d, tx)
    ensures ChainInv(d) && SameAccounting(c, d) && Total(d) == Total(c)
  {
    ReceivingKeeps(c, tx);
    NoncesKept(c, d);
  }

  /** Until when an unstake in the next block freezes. */
  function RefundAt(c: Chain): int
  {
    c.height + 1 + c.params.lazyRewardBlocks
  }

  lemma TallyAdds(b: Books, w: World, tx: Tx, refundHeight: int)
    ensures var t := Tally(b, w, tx, refundHeight);
            && t.overwritten + t.collided == b.overwritten + b.collided + LostBy(w, tx, refundHeight)
            && t.withdrawn == b.withdrawn + TakenBy(tx)
            && t.issued == b.issued && t.destroyed == b.destroyed && t.unpaidFees == b.unpaidFees
  {
  }

  /** The chain after an executed transaction, from the world r that its execution left. */
  function Charged(c: Chain, w: World, r: World, tx: Tx, fee: nat): Chain
    requires tx.from in r.accounts && fee <= r.accounts[tx.from].balance
  {
    c.(used := c.used[tx.hash := (tx.from, tx.nonce)], world := ChargedWorld(r, tx.from, fee),
       fees := Add256(c.fees, fee), books := Tally(c.books, w, tx, RefundAt(c)), executed := c.executed + [(tx.from, tx.nonce)])
  }

  /** What is known when a validated transaction has been executed from world w to world r. */
  ghost predicate Ran(c: Chain, w: World, r: World, tx: Tx, fee: nat)
  {
    && ChainInv(c) && Supply(w) == Supply(c.world) && AccountsGrow(c.world.accounts, w.accounts)
    && SumMap(Cumulated, w.rewards.working) == SumMap(Cumulated, c.world.rewards.working)
    && tx.from in c.world.accounts && c.world.accounts[tx.from].nonce == w.accounts[tx.from].nonce == tx.nonce
    && Carried(w, r, tx.from, fee, LostBy(w, tx, RefundAt(c)), TakenBy(tx), c.height + 1, Taken(c) + {tx.hash})
  }

  lemma ExecutionKeepsInv(c: Chain, w: World, r: World, tx: Tx, fee: nat)
    requires Ran(c, w, r, tx, fee)
    ensures ChainInv(Charged(c, w, r, tx, fee))
    ensures Supply(Charged(c, w, r, tx, fee).world) == Supply(r) - fee
  {
    var paid := ChargeLaw(r, tx.from, fee, Taken(c) + {tx.hash});
    var d := Charged(c, w, r, tx, fee);
    assert d.world == paid && Taken(d) == Taken(c) + {tx.hash};
    ExecutedOnce(c, d, tx.from, tx.nonce);
  }

  lemma ExecutionLaw(c: Chain, w: World, r: World, tx: Tx, fee: nat)
    requires Ran(c, w, r, tx, fee) && Total(c) < MAX_SUPPLY && LostBy(w, tx, RefundAt(c)) >= 0
    ensures ChainInv(Charged(c, w, r, tx, fee))
    ensures SameAccounting(c, Charged(c, w, r, tx, fee))
    ensures Total(Charged(c, w, r, tx, fee)) == Total(c) - AMOUNT_PER_POWER * LostBy(w, tx, RefundAt(c))
  {
    ExecutionKeepsInv(c, w, r, tx, fee);
    var d := Charged(c, w, r, tx, fee);
    PartsWithinSupply(d.world, Taken(d));
    assert d.fees == c.fees + fee;
    TallyAdds(c.books, w, tx, RefundAt(c));
  }

  lemma UnstakedIsHeld(d: Delegatee, txHash: Hash, owners: set<Address>, used: set<Hash>)
    requires Holds(d, d.addr, owners, used) && FindStake(d.stakes, txHash) >= 0
    ensures forall s | s in UnstakedWith(d, txHash) :: s in d.stakes && s.power >= 0 && s.from in owners
  {
    RemoveByHashRemovesOne(d.stakes, txHash);
  }

  lemma LostIsPart(w: World, tx: Tx, refundHeight: int, used: set<Hash>)
    requires Good(w, used)
    ensures LostBy(w, tx, refundHeight) >= 0
  {
    if tx.to in w.delegatees.working {
      var d := w.delegatees.working[tx.to];
      SumSeqNonNegative(Power, d.stakes);
      if tx.kind.TrxUnstaking? && CanUnstake(w, tx.from, tx.to, tx.kind.stakeHash) {
        UnstakedIsHeld(d, tx.kind.stakeHash, w.accounts.Keys, used);
        ClashedIsNonNegative(w.frozen, UnstakedWith(d, tx.kind.stakeHash), refundHeight, w.accounts.Keys);
      }
    }
  }

  lemma HasRun(c: Chain, w: World, r: World, tx: Tx, fee: nat, lost: int)
    requires ChainInv(c) && Supply(w) == Supply(c.world) && AccountsGrow(c.world.accounts, w.accounts) && w.rewards == c.world.rewards
    requires tx.from in c.world.accounts && c.world.accounts[tx.from].nonce == w.accounts[tx.from].nonce == tx.nonce
    requires lost == LostBy(w, tx, RefundAt(c)) && Carried(w, r, tx.from, fee, lost, TakenBy(tx), c.height + 1, Taken(c) + {tx.hash})
    ensures Ran(c, w, r, tx, fee)
  {
  }

  /** A validated transaction runs, and its sender keeps the fee. */
  lemma ValidatedRuns(c: Chain, tx: Tx) returns (r: World)
    requires ChainInv(c) && ParamsOk(c.params) && Total(c) < MAX_SUPPLY && NoCollision(c.used, tx)
    requires tx.from in c.world.accounts && Validate(Receiving(c, tx), tx, c.params)
    ensures Execute(Receiving(c, tx), tx, c.height + 1, c.params) == (r, true)
    ensures tx.hash !in Taken(c)
    ensures Ran(c, Receiving(c, tx), r, tx, Fee(tx)) && LostBy(Receiving(c, tx), tx, RefundAt(c)) >= 0 && Fee(tx) < SIGN_BIT
  {
    var w := Receiving(c, tx);
    ReceivingKeeps(c, tx);
    ValidatedCanPay(w.accounts[tx.from], tx, c.params);
    NextIsFresh(c, tx);
    var lost;
    r, lost := ExecuteCarries(w, tx, Fee(tx), c.height + 1, c.params, RefundAt(c), Taken(c));
    LostIsPart(w, tx, RefundAt(c), Taken(c));
    HasRun(c, w, r, tx, Fee(tx), lost);
  }

  lemma DeliverIsCharge(c: Chain, tx: Tx, r: World)
    requires RewardsUpTo(c.world.rewards, c.height + 1)
    requires tx.from in c.world.accounts && Validate(Receiving(c, tx), tx, c.params)
    requires Execute(Receiving(c, tx), tx, c.height + 1, c.params) == (r, true)
    requires tx.from in r.accounts && Fee(tx) <= r.accounts[tx.from].balance && Fee(tx) < SIGN_BIT
    ensures Deliver(c, tx) == (Charged(c, Receiving(c, tx), r, tx, Fee(tx)), Executed)
  {
    assert tx.gas * tx.gasPrice == tx.gasPrice * tx.gas;
  }

  /**
   One delivered transaction: it is rejected without a trace or carried out in full and paid for; coins are accounted for
   in both cases.
   */
  lemma DeliverLaw(c: Chain, tx: Tx) returns (d: Chain, o: Delivery)
    requires ChainInv(c) && ParamsOk(c.params) && Total(c) < MAX_SUPPLY && NoCollision(c.used, tx)
    ensures (d, o) == Deliver(c, tx)
    ensures ChainInv(d) && SameAccounting(c, d) && Total(d) <= Total(c)
    ensures o == Rejected || o == Executed
    ensures o == Rejected ==> Untouched(c, d, tx)
    ensures o == Executed ==> d.executed == c.executed + [(tx.from, tx.nonce)]
    ensures o == Executed ==> tx.hash !in Taken(c) && d.used == c.used[tx.hash := (tx.from, tx.nonce)]
  {
    if tx.from in c.world.accounts && Validate(Receiving(c, tx), tx, c.params) {
      var r := ValidatedRuns(c, tx);
      DeliverIsCharge(c, tx, r);
      ExecutionLaw(c, Receiving(c, tx), r, tx, Fee(tx));
      d, o := Charged(c, Receiving(c, tx), r, tx, Fee(tx)), Executed;
    } else {
      d, o := Deliver(c, tx).0, Rejected;
      RejectionLaw(c, d, tx);
    }
  }

  // ----- The stages of a block -----

  lemma {:induction false} PunishAllLaw(w: World, evidence: seq<Address>, ratio: int, used: set<Hash>)
    requires Good(w, used) && 0 <= ratio <= 100
    ensures var r := PunishAll(w, evidence, ratio);
            && Good(r, used) && Supply(r) == Supply(w) - AMOUNT_PER_POWER * DestroyedBy(w, evidence, ratio)
            && r.accounts == w.accounts && r.rewards == w.rewards
    ensures DestroyedBy(w, evidence, ratio) >= 0
  {
    if evidence != [] {
      var front := evidence[..|evidence| - 1];
      PunishAllLaw(w, front, ratio, used);
      PunishDestroys(PunishAll(w, front, ratio), evidence[|evidence| - 1], ratio, used);
    }
  }

  /** What a signed vote issues is the reward per power for the whole power of its validator. */
  lemma RewardedPower(immutable: map<Address, Delegatee>, v: VoteInfo)
    requires AllSound(immutable)
    ensures SumPower(Rewarded(immutable, v)) == if Rewarded(immutable, v) == [] then 0 else v.power
    ensures SumPower(Rewarded(immutable, v)) >= 0
  {
    SumSeqNonNegative(Power, Rewarded(immutable, v));
  }

  lemma RewardedIssue(immutable: map<Address, Delegatee>, v: VoteInfo, perPower: nat)
    requires AllSound(immutable)
    ensures perPower * SumPower(Rewarded(immutable, v)) >= 0
  {
    RewardedPower(immutable, v);
  }

  /** After processing one or more votes: so much has been issued, and so much power overwritten. */
  ghost predicate Voted(w: World, r: World, issue: int, clash: int, used: set<Hash>)
  {
    && Good(r, used) && Supply(r) == Supply(w) + issue - AMOUNT_PER_POWER * clash && r.accounts == w.accounts
    && SumMap(Cumulated, r.rewards.working) == SumMap(Cumulated, w.rewards.working) + issue
    && clash >= 0
  }

  lemma SignedVoteLaw(w: World, stakes: seq<Stake>, h: int, perPower: nat, used: set<Hash>)
    requires Good(w, used) && RewardsUpTo(w.rewards, h) && forall s | s in stakes :: s.power >= 0
    requires Supply(w) + perPower * SumPower(stakes) < MAX_SUPPLY
    ensures Voted(w, w.(rewards := RewardStakes(w.rewards, stakes, h, perPower)), perPower * SumPower(stakes), 0, used)
  {
    PartsWithinSupply(w, used);
    RewardsIssue(w.rewards, stakes, h, perPower);
  }

  lemma MovedOnly(w: World, r: World, clash: int, used: set<Hash>)
    requires Good(r, used) && Supply(r) == Supply(w) - AMOUNT_PER_POWER * clash && clash >= 0
    requires r.accounts == w.accounts && r.rewards == w.rewards
    ensures Voted(w, r, 0, clash, used)
  {
  }

  lemma MissedVoteLaw(w: World, v: VoteInfo, h: int, p: GovParams, used: set<Hash>) returns (r: World, clash: int)
    requires Good(w, used) && !v.signed
    ensures r == MissBlock(w, v.addr, h, p) && clash == ClashedByVote(w, v, h, p)
    ensures Voted(w, r, 0, clash, used)
  {
    r, clash := MissBlockLaw(w, v, h, p, used);
    MovedOnly(w, r, clash, used);
  }

  lemma VoteLaw(w: World, v: VoteInfo, immutable: map<Address, Delegatee>, h: int, p: GovParams, used: set<Hash>)
    returns (r: World, clash: int)
    requires Good(w, used) && RewardsUpTo(w.rewards, h) && AllSound(immutable)
    requires Supply(w) + p.rewardPerPower * SumPower(Rewarded(immutable, v)) < MAX_SUPPLY
    ensures r == ProcessVote(w, v, immutable, h, p) && clash == ClashedByVote(w, v, h, p)
    ensures Voted(w, r, p.rewardPerPower * SumPower(Rewarded(immutable, v)), clash, used)
  {
    if v.signed {
      SignedVoteLaw(w, Rewarded(immutable, v), h, p.rewardPerPower, used);
      r, clash := ProcessVote(w, v, immutable, h, p), 0;
    } else {
      assert p.rewardPerPower * SumPower(Rewarded(immutable, v)) == 0;
      r, clash := MissedVoteLaw(w, v, h, p, used);
    }
  }

  /** What a block asks for, so that no number overflows and no two transactions have the same hash. */
  ghost predicate BlockOk(c: Chain, b: Block)
  {
    && ParamsOk(c.params)
    && Total(c) + IssueOf(c, b) < MAX_SUPPLY
    && NoCollisions(c.used, b.txs)
  }

  ghost predicate NoCollisions(used: map<Hash, (Address, nat)>, txs: seq<Tx>)
  {
    && (forall tx | tx in txs :: NoCollision(used, tx))
    && (forall x, y | x in txs && y in txs && x.hash == y.hash :: x.from == y.from && x.nonce == y.nonce)
  }

  /** What the stages of a block leave alone. */
  ghost predicate SameBlock(c: Chain, d: Chain)
  {
    d.params == c.params && d.used == c.used && d.height == c.height && d.history == c.history && d.executed == c.executed && d.fees == c.fees
  }

  lemma EvidenceLaw(c: Chain, evidence: seq<Address>) returns (d: Chain)
    requires ChainInv(c) && ParamsOk(c.params)
    ensures d == AfterEvidence(c, evidence) && SameBlock(c, d)
    ensures ChainInv(d) && SameAccounting(c, d) && Total(d) <= Total(c)
  {
    d := AfterEvidence(c, evidence);
    PunishAllLaw(c.world, evidence, c.params.slashRatio, Taken(c));
    NoncesKept(c, d);
  }

  lemma VotedChain(c: Chain, d: Chain, r: World, t: Books, issue: int, clash: int)
    requires ChainInv(c) && RewardsUpTo(r.rewards, c.height + 1) && Voted(c.world, r, issue, clash, Taken(c))
    requires t == c.books.(issued := c.books.issued + issue, collided := c.books.collided + clash, genesisFrozen := t.genesisFrozen)
    requires d == c.(world := r, books := t)
    ensures ChainInv(d) && SameAccounting(c, d) && Total(d) <= Total(c) + issue && SameBlock(c, d)
  {
    NoncesKept(c, d);
  }

  lemma VoteBooksAre(b: Books, w: World, v: VoteInfo, immutable: map<Address, Delegatee>, h: int, p: GovParams) returns (t: Books)
    ensures t == VoteBooks(b, w, v, immutable, h, p)
         == b.(issued := b.issued + p.rewardPerPower * SumPower(Rewarded(immutable, v)),
               collided := b.collided + ClashedByVote(w, v, h, p), genesisFrozen := t.genesisFrozen)
  {
    t := VoteBooks(b, w, v, immutable, h, p);
  }

  lemma VoteStep(c: Chain, v: VoteInfo, immutable: map<Address, Delegatee>, h: int, p: GovParams, issue: int) returns (d: Chain)
    requires h == c.height + 1 && p == c.params && ChainInv(c) && AllSound(immutable)
    requires issue == p.rewardPerPower * SumPower(Rewarded(immutable, v)) && Total(c) + issue < MAX_SUPPLY
    ensures d == AfterVote(c, v, immutable, h, p) && SameBlock(c, d)
    ensures ChainInv(d) && SameAccounting(c, d) && Total(d) <= Total(c) + issue
  {
    var r, clash := VoteLaw(c.world, v, immutable, h, p, Taken(c));
    var t := VoteBooksAre(c.books, c.world, v, immutable, h, p);
    d := c.(world := r, books := t);
    VotedChain(c, d, r, t, issue, clash);
  }

  /** The votes of a block issue rewards and stop validators, and coins are accounted for. */
  lemma {:induction false} VotesLaw(c: Chain, votes: seq<VoteInfo>, immutable: map<Address, Delegatee>, h: int, p: GovParams, issue: int)
    returns (d: Chain)
    requires h == c.height + 1 && p == c.params && ChainInv(c) && AllSound(immutable)
    requires issue == IssuedBy(votes, immutable, p.rewardPerPower) && Total(c) + issue < MAX_SUPPLY
    ensures d == AfterVotes(c, votes, immutable, h, p) && SameBlock(c, d)
    ensures ChainInv(d) && SameAccounting(c, d) && Total(d) <= Total(c) + issue
  {
    if votes == [] {
      d := c;
    } else {
      var front, v := votes[..|votes| - 1], votes[|votes| - 1];
      RewardedIssue(immutable, v, p.rewardPerPower);
      var m := VotesLaw(c, front, immutable, h, p, IssuedBy(front, immutable, p.rewardPerPower));
      d := VoteStep(m, v, immutable, h, p, p.rewardPerPower * SumPower(Rewarded(immutable, v)));
    }
  }

  lemma BeginBlockLaw(c: Chain, b: Block)
    requires ChainInv(c) && BlockOk(c, b)
    ensures var d := BeginBlock(c, b); ChainInv(d) && SameAccounting(c, d) && Total(d) < MAX_SUPPLY && SameBlock(c, d)
  {
    var judged := EvidenceLaw(c, b.evidence);
    var version := RewardVersion(c.history, c.height + 1);
    if version.Some? { var d := VotesLaw(judged, b.votes, version.value, c.height + 1, c.params, IssueOf(c, b)); }
  }

  /** The hashes that have come to be used by some transactions. */
  ghost predicate UsedBy(used: map<Hash, (Address, nat)>, after: map<Hash, (Address, nat)>, txs: seq<Tx>)
  {
    && (forall k | k in used :: k in after && after[k] == used[k])
    && (forall k | k in after && k !in used :: exists tx :: tx in txs && tx.hash == k && after[k] == (tx.from, tx.nonce))
  }

  lemma CollisionsSnoc(used: map<Hash, (Address, nat)>, after: map<Hash, (Address, nat)>, front: seq<Tx>, tx: Tx)
    requires NoCollisions(used, front + [tx])
    ensures NoCollisions(used, front)
    ensures UsedBy(used, after, front) ==> NoCollision(after, tx)
  {
    assert forall x | x in front :: x in front + [tx];
    assert tx in front + [tx];
  }

  lemma UsedSnoc(used: map<Hash, (Address, nat)>, after: map<Hash, (Address, nat)>, front: seq<Tx>, tx: Tx, next: map<Hash, (Address, nat)>)
    requires UsedBy(used, after, front)
    requires next == after || (tx.hash !in after && next == after[tx.hash := (tx.from, tx.nonce)])
    ensures UsedBy(used, next, front + [tx])
  {
    assert forall x | x in front :: x in front + [tx];
    assert tx in front + [tx];
  }

  lemma {:induction false} DeliverAllLaw(c: Chain, txs: seq<Tx>)
    requires ChainInv(c) && ParamsOk(c.params) && Total(c) < MAX_SUPPLY && NoCollisions(c.used, txs)
    ensures var d := DeliverAll(c, txs);
            && ChainInv(d) && SameAccounting(c, d) && Total(d) < MAX_SUPPLY
            && UsedBy(c.used, d.used, txs)
  {
    if txs != [] {
      var front, tx := txs[..|txs| - 1], txs[|txs| - 1];
      var m := DeliverAll(c, front);
      assert txs == front + [tx];
      CollisionsSnoc(c.used, m.used, front, tx);
      DeliverAllLaw(c, front);
      var d, o := DeliverLaw(m, tx);
      UsedSnoc(c.used, m.used, front, tx, d.used);
      assert DeliverAll(c, txs) == d;
    }
  }

  lemma PayProposerLaw(c: Chain, proposer: Option<Address>)
    requires ChainInv(c) && Total(c) < MAX_SUPPLY
    ensures var d := PayProposer(c, proposer);
            && ChainInv(d) && SameAccounting(c, d) && Total(d) < MAX_SUPPLY && d.fees == 0
            && d.world.frozen == c.world.frozen && d.world.delegatees == c.world.delegatees
            && d.height == c.height && d.used == c.used
            && (Total(d) == Total(c) <==> proposer.Some? || c.fees == 0)
  {
    var d := PayProposer(c, proposer);
    if c.fees != 0 && proposer.Some? {
      var book := FindOrNew(c.world.accounts, proposer.value);
      PartsWithinSupply(c.world, Taken(c));
      NewAccountAddsNothing(c.world.accounts, proposer.value);
      CreditAdds(book, proposer.value, c.fees);
      OwnersGrow(c.world, d.world.accounts, Taken(c));
      NoncesKept(c, d);
    }
  }

  /**
   What a validated staking leads to: after an own stake the delegatee has the self power that a validator
   needs, after a delegation its own share is not below the minimum ratio.
   */
  lemma StakingMeetsMinima(w: World, tx: Tx, h: int, p: GovParams)
    requires tx.kind.TrxStaking? && tx.from in w.accounts && tx.to in w.accounts && RewardsUpTo(w.rewards, h)
    requires CommonValidation0(tx, p) && ValidStake(w, tx, p) && tx.amount <= w.accounts[tx.from].balance
    ensures var (r, ok) := Execute(w, tx, h, p);
            ok && tx.to in r.delegatees.working &&
            var d := r.delegatees.working[tx.to];
            if tx.from == tx.to
            then AmountToPower(p.minValidatorStake).Some? && d.selfPower >= AmountToPower(p.minValidatorStake).value
            else d.totalPower > 0 && Quo(d.selfPower * 100, d.totalPower) >= p.minSelfStakeRatio
  {
  }
}
