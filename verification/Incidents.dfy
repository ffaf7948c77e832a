/**
 Blocks in which power is lost: two genesis validators that unstake together, and a second staking on a delegatee that
 was deleted and made again in the same block.
 */
module Incidents {
  import opened Prelude
  import opened Overlays
  import opened Amounts
  import opened Delegatees
  import opened Accounts
  import opened GovernanceParams
  import opened Staking
  import opened Conservation
  import opened Chains
  import opened ChainLaws
  import opened Genesis
  import opened ChainRuns
  import opened StakeLives
  import opened Collisions

  // ----- Two validators -----

  /** The first transaction of a genesis validator, at no gas price: it unstakes. */
  predicate IsUnstakeOf(tx: Tx, v: GenesisValidator)
  {
    && tx.kind == TrxUnstaking(GENESIS_HASH) && tx.from == tx.to == v.addr && tx.signatureOk && tx.handlerOk
    && tx.amount == tx.gas == tx.gasPrice == tx.nonce == 0
  }

  lemma GenesisUnstakes(v: GenesisValidator)
    ensures FindStake(GenesisDelegatee(v).stakes, GENESIS_HASH) == 0
    ensures WithoutStake(GenesisDelegatee(v), GENESIS_HASH).selfPower == 0 && WithoutStake(GenesisDelegatee(v), GENESIS_HASH).totalPower == 0
    ensures UnstakedWith(GenesisDelegatee(v), GENESIS_HASH) == [GenesisStake(v)]
    ensures GenesisPowers([GenesisStake(v)]) == [v.power]
  {
    var d := GenesisDelegatee(v);
    assert d.stakes == [GenesisStake(v)];
    assert [GenesisStake(v)][..0] == [] && GenesisPowers([]) == [];
  }

  lemma UnstakeIsValid(c: Chain, v: GenesisValidator, tx: Tx)
    requires c.params.gasPrice == 0 && |v.addr| == ADDR_SIZE && v.addr in c.world.accounts && c.world.accounts[v.addr].nonce == 0
    requires c.world.delegatees.Get(v.addr) == Some(GenesisDelegatee(v)) && IsUnstakeOf(tx, v)
    ensures Validate(Receiving(c, tx), tx, c.params)
  {
    GenesisUnstakes(v);
  }

  lemma UnstakesAll(w: World, v: GenesisValidator, rh: int) returns (r: World)
    requires w.delegatees.Get(v.addr) == Some(GenesisDelegatee(v))
    ensures CanUnstake(w, v.addr, v.addr, GENESIS_HASH) && r == Unstaked(w, v.addr, GENESIS_HASH, rh)
    ensures r.delegatees == w.delegatees.Del(v.addr) && r.accounts == w.accounts
  {
    GenesisUnstakes(v);
    r := Unstaked(w, v.addr, GENESIS_HASH, rh);
  }

  lemma UnstakeIsLogged(b: Books, w: World, v: GenesisValidator, tx: Tx, rh: int)
    requires w.delegatees.Get(v.addr) == Some(GenesisDelegatee(v)) && IsUnstakeOf(tx, v)
    ensures Tally(b, w, tx, rh).genesisFrozen == b.genesisFrozen + [v.power] && Tally(b, w, tx, rh).overwritten == b.overwritten
  {
    GenesisUnstakes(v);
  }

  /** The sender's nonce moves on. */
  function Counted(book: Book, a: Address): Book
    requires a in book
  {
    book[a := book[a].(nonce := book[a].nonce + 1)]
  }

  /** A validated transaction at no gas price: only the nonce of its sender moves besides what it does. */
  lemma NoFeeDelivery(c: Chain, tx: Tx) returns (w: World, r: World, d: Chain)
    requires ChainInv(c) && ParamsOk(c.params) && Total(c) < MAX_SUPPLY && NoCollision(c.used, tx) && c.params.gasPrice == 0
    requires tx.from in c.world.accounts && Validate(Receiving(c, tx), tx, c.params)
    ensures w == Receiving(c, tx) && RewardsUpTo(w.rewards, c.height + 1) && Execute(w, tx, c.height + 1, c.params) == (r, true)
    ensures d == Deliver(c, tx).0 && ChainInv(d) && Total(d) < MAX_SUPPLY && d.params == c.params && d.height == c.height
    ensures d.books == Tally(c.books, w, tx, RefundAt(c)) && d.used == c.used[tx.hash := (tx.from, tx.nonce)]
    ensures d.world.delegatees == r.delegatees && tx.from in r.accounts && d.world.accounts == Counted(r.accounts, tx.from)
  {
    w := Receiving(c, tx);
    r := ValidatedRuns(c, tx);
    DeliverIsCharge(c, tx, r);
    d := Charged(c, w, r, tx, Fee(tx));
    ChargedAtNoFee(c, w, r, tx, d);
    var d', o := DeliverLaw(c, tx);
  }

  lemma ChargedAtNoFee(c: Chain, w: World, r: World, tx: Tx, d: Chain)
    requires Fee(tx) == 0 && tx.from in r.accounts && d == Charged(c, w, r, tx, 0)
    ensures d.world.delegatees == r.delegatees && d.world.accounts == Counted(r.accounts, tx.from)
    ensures d.books == Tally(c.books, w, tx, RefundAt(c)) && d.used == c.used[tx.hash := (tx.from, tx.nonce)]
    ensures d.params == c.params && d.height == c.height
  {
  }

  lemma UnstakeLeaves(c: Chain, v: GenesisValidator, tx: Tx, w: World, r: World, rh: int)
    requires w == Receiving(c, tx) && RewardsUpTo(w.rewards, c.height + 1) && v.addr in c.world.accounts && IsUnstakeOf(tx, v)
    requires c.world.delegatees.Get(v.addr) == Some(GenesisDelegatee(v)) && rh == c.height + 1 + c.params.lazyRewardBlocks
    requires Execute(w, tx, c.height + 1, c.params) == (r, true)
    ensures r.delegatees == c.world.delegatees.Del(v.addr) && r.accounts == c.world.accounts
    ensures var t := Tally(c.books, w, tx, rh); t.genesisFrozen == c.books.genesisFrozen + [v.power] && t.overwritten == c.books.overwritten
  {
    ExecuteIsUnstaking(w, tx, c.height + 1, c.params, rh);
    var x := UnstakesAll(w, v, rh);
    UnstakeIsLogged(c.books, w, v, tx, rh);
  }

  lemma UnstakeOne(c: Chain, v: GenesisValidator, tx: Tx) returns (d: Chain)
    requires ChainInv(c) && ParamsOk(c.params) && Total(c) < MAX_SUPPLY && NoCollision(c.used, tx) && IsUnstakeOf(tx, v)
    requires c.params.gasPrice == 0 && |v.addr| == ADDR_SIZE && v.addr in c.world.accounts && c.world.accounts[v.addr].nonce == 0
    requires c.world.delegatees.Get(v.addr) == Some(GenesisDelegatee(v))
    ensures d == Deliver(c, tx).0 && ChainInv(d) && Total(d) < MAX_SUPPLY && d.params == c.params && d.height == c.height
    ensures d.books.genesisFrozen == c.books.genesisFrozen + [v.power] && d.books.overwritten == c.books.overwritten
    ensures d.world.delegatees == c.world.delegatees.Del(v.addr) && d.used == c.used[tx.hash := (tx.from, tx.nonce)]
    ensures d.world.accounts == Counted(c.world.accounts, v.addr)
  {
    UnstakeIsValid(c, v, tx);
    var w, r;
    w, r, d := NoFeeDelivery(c, tx);
    UnstakeLeaves(c, v, tx, w, r, RefundAt(c));
  }

  lemma TwoDelegatees(a: GenesisValidator, b: GenesisValidator)
    requires a.addr != b.addr
    ensures var w := InitWorld([], [a, b]);
            && w.delegatees == Overlay(map[], map[a.addr := GenesisDelegatee(a), b.addr := GenesisDelegatee(b)], {})
            && w.accounts == map[a.addr := NEW_ACCOUNT, b.addr := NEW_ACCOUNT]
            && Supply(w) == AMOUNT_PER_POWER * (a.power + b.power)
  {
    var vals := [a, b];
    assert vals[..1] == [a] && [a][..0] == [];
    assert InitDelegatees(Fresh(map[]), vals) == InitDelegatees(Fresh(map[]), [a]).Set(b.addr, GenesisDelegatee(b));
    assert InitDelegatees(Fresh(map[]), [a]) == Fresh(map[]).Set(a.addr, GenesisDelegatee(a));
    assert ValidatorAccounts(map[], vals) == FindOrNew(ValidatorAccounts(map[], [a]), b.addr);
    assert ValidatorAccounts(map[], [a]) == FindOrNew(map[], a.addr);
    GenesisSupply([], vals);
    SumSeqAppend(ValidatorPower, [a], b);
    assert [a] + [b] == vals;
  }

  lemma NothingBegins(c: Chain, b: Block)
    requires ChainInv(c) && c.height == 0 && b.evidence == [] && b.votes == []
    ensures BeginBlock(c, b) == c && IssueOf(c, b) == 0
  {
  }

  /** Two genesis validators that have done nothing yet. */
  ghost predicate TwoValidators(c: Chain, a: GenesisValidator, b: GenesisValidator)
  {
    && ChainInv(c) && OthersTidy(c) && Total(c) < MAX_SUPPLY && ParamsOk(c.params) && c.params.gasPrice == 0
    && c.height == 0 && c.used == map[] && c.books.genesisFrozen == [] && c.books.collided == 0 && c.world.frozen == Fresh(map[])
    && a.addr != b.addr && |a.addr| == |b.addr| == ADDR_SIZE && a.addr in c.world.accounts && b.addr in c.world.accounts
    && c.world.accounts[a.addr].nonce == c.world.accounts[b.addr].nonce == 0
    && c.world.delegatees.Get(a.addr) == Some(GenesisDelegatee(a)) && c.world.delegatees.Get(b.addr) == Some(GenesisDelegatee(b))
  }

  lemma TwoValidatorsBegin(a: GenesisValidator, b: GenesisValidator, p: GovParams) returns (c: Chain)
    requires a.addr != b.addr && |a.addr| == |b.addr| == ADDR_SIZE && a.power > 0 && b.power > 0 && a.power + b.power < I63
    requires ParamsOk(p) && p.gasPrice == 0
    ensures c == InitChain([], [a, b], p) && TwoValidators(c, a, b)
  {
    c := GenesisSlots([], [a, b], p);
    c := InitChainIsInv([], [a, b], p);
    TwoDelegatees(a, b);
  }

  /** Their transactions, which have different hashes. */
  predicate TwoTxs(a: GenesisValidator, b: GenesisValidator, s: Tx, t: Tx)
  {
    IsUnstakeOf(s, a) && IsUnstakeOf(t, b) && s.hash != t.hash && s.hash != GENESIS_HASH && t.hash != GENESIS_HASH
  }

  /** The second validator as it was, after the first one has unstaked. */
  ghost predicate OneLeft(m: Chain, a: GenesisValidator, b: GenesisValidator, t: Tx)
  {
    && ChainInv(m) && ParamsOk(m.params) && Total(m) < MAX_SUPPLY && NoCollision(m.used, t) && m.params.gasPrice == 0
    && m.books.genesisFrozen == [a.power] && b.addr in m.world.accounts && m.world.accounts[b.addr].nonce == 0
    && m.world.delegatees.Get(b.addr) == Some(GenesisDelegatee(b))
  }

  lemma OtherIsRead<K, V>(o: Overlay<K, V>, a: K, b: K)
    requires a != b
    ensures o.Del(a).Get(b) == o.Get(b)
  {
  }

  lemma LeftAfter(c: Chain, a: GenesisValidator, b: GenesisValidator, s: Tx, t: Tx, m: Chain)
    requires TwoValidators(c, a, b) && TwoTxs(a, b, s, t) && ChainInv(m) && Total(m) < MAX_SUPPLY && m.params == c.params
    requires m.books.genesisFrozen == c.books.genesisFrozen + [a.power] && m.world.delegatees == c.world.delegatees.Del(a.addr)
    requires m.used == c.used[s.hash := (s.from, s.nonce)]
    requires m.world.accounts == Counted(c.world.accounts, a.addr)
    ensures OneLeft(m, a, b, t)
  {
    OtherIsRead(c.world.delegatees, a.addr, b.addr);
  }

  lemma FirstUnstakes(c: Chain, a: GenesisValidator, b: GenesisValidator, s: Tx, t: Tx) returns (m: Chain)
    requires TwoValidators(c, a, b) && TwoTxs(a, b, s, t)
    ensures m == Deliver(c, s).0 && OneLeft(m, a, b, t)
  {
    m := UnstakeOne(c, a, s);
    LeftAfter(c, a, b, s, t, m);
  }

  lemma SecondUnstakes(m: Chain, a: GenesisValidator, b: GenesisValidator, t: Tx) returns (d: Chain)
    requires OneLeft(m, a, b, t) && IsUnstakeOf(t, b) && |b.addr| == ADDR_SIZE
    ensures d == Deliver(m, t).0 && d.books.genesisFrozen == [a.power, b.power]
  {
    d := UnstakeOne(m, b, t);
  }

  lemma TwoUnstakes(c: Chain, a: GenesisValidator, b: GenesisValidator, s: Tx, t: Tx)
    requires TwoValidators(c, a, b) && TwoTxs(a, b, s, t)
    ensures DeliverAll(c, [s, t]).books.genesisFrozen == [a.power, b.power]
  {
    TwoDeliveries(c, s, t);
    var m := FirstUnstakes(c, a, b, s, t);
    var d := SecondUnstakes(m, a, b, t);
  }

  lemma DeliverLast(c: Chain, txs: seq<Tx>, tx: Tx)
    requires RewardsUpTo(c.world.rewards, c.height + 1)
    ensures DeliverAll(c, txs + [tx]) == Deliver(DeliverAll(c, txs), tx).0
  {
    assert (txs + [tx])[..|txs|] == txs;
  }

  lemma TwoDeliveries(c: Chain, s: Tx, t: Tx)
    requires RewardsUpTo(c.world.rewards, c.height + 1)
    ensures DeliverAll(c, [s, t]) == Deliver(Deliver(c, s).0, t).0
  {
    assert [] + [s] == [s] && [s] + [t] == [s, t];
    DeliverLast(c, [], s);
    DeliverLast(c, [s], t);
  }

  lemma LossOfTwo(p: int, q: int)
    ensures Loss(0, [p, q], false) == p && LastOr(0, [p, q]) == q
  {
    assert [p, q][..1] == [p] && [p][..0] == [];
    assert Sum([p]) == p;
  }

  lemma TwoValidatorsCollide(c: Chain, a: GenesisValidator, b: GenesisValidator, blk: Block, d: Chain)
    requires TwoValidators(c, a, b) && Follows(c, blk, d) && Delivered(c, blk).books.genesisFrozen == [a.power, b.power]
    ensures d.books.collided == a.power && Slot(d.world.frozen.committed) == b.power
  {
    BlockSlots(c, blk);
    var m, powers := DeliveredTakes(c, blk);
    FinishLaw(m, blk);
    DeliveredAdvances(c, blk, GENESIS_HASH);
    assert Refunded(m) == {} && Refunded(c) == {};
    assert powers == [a.power, b.power] == Logged(c, d);
    LossOfTwo(a.power, b.power);
  }

  lemma TwoHashes(a: GenesisValidator, b: GenesisValidator, txs: seq<Tx>)
    requires |txs| == 2 && TwoTxs(a, b, txs[0], txs[1])
    ensures NoCollisions(map[], txs)
  {
    assert forall tx | tx in txs :: tx == txs[0] || tx == txs[1];
  }

  lemma UnstakesRun(c: Chain, a: GenesisValidator, b: GenesisValidator, blk: Block) returns (d: Chain)
    requires TwoValidators(c, a, b) && blk.evidence == [] && blk.votes == [] && |blk.txs| == 2 && TwoTxs(a, b, blk.txs[0], blk.txs[1])
    ensures Follows(c, blk, d) && Delivered(c, blk).books.genesisFrozen == [a.power, b.power]
  {
    assert blk.txs == [blk.txs[0], blk.txs[1]];
    NothingBegins(c, blk);
    TwoUnstakes(c, a, b, blk.txs[0], blk.txs[1]);
    TwoHashes(a, b, blk.txs);
    assert BlockOk(c, blk);
    d := RunBlock(c, blk);
  }

  /** Two genesis validators that unstake in the same block: the power of the first one is lost for good. */
  lemma TwoValidatorsLoseOne(a: GenesisValidator, b: GenesisValidator, p: GovParams, blk: Block) returns (c: Chain, d: Chain)
    requires a.addr != b.addr && |a.addr| == |b.addr| == ADDR_SIZE && a.power > 0 && b.power > 0 && a.power + b.power < I63
    requires ParamsOk(p) && p.gasPrice == 0
    requires blk.evidence == [] && blk.votes == [] && |blk.txs| == 2 && TwoTxs(a, b, blk.txs[0], blk.txs[1])
    ensures c == InitChain([], [a, b], p) && Follows(c, blk, d)
    ensures d.books.collided == a.power && Slot(d.world.frozen.committed) == b.power
  {
    c := TwoValidatorsBegin(a, b, p);
    d := UnstakesRun(c, a, b, blk);
    TwoValidatorsCollide(c, a, b, blk, d);
  }

  // ----- A delegatee made again -----

  /** An own stake of power q, at no gas price. */
  predicate IsStakeOf(tx: Tx, a: Address, q: int, nonce: nat)
  {
    && tx.kind == TrxStaking && tx.from == tx.to == a && tx.signatureOk && tx.handlerOk
    && tx.amount == AMOUNT_PER_POWER * q && tx.gas == tx.gasPrice == 0 && tx.nonce == nonce
  }

  predicate EnoughFor(q: int, p: GovParams)
  {
    0 < q < I63 && AmountToPower(p.minValidatorStake).Some? && AmountToPower(p.minValidatorStake).value <= q
  }

  /** Can stake so much: the address reads as no delegatee's, and has the balance and the nonce. */
  ghost predicate CanRemake(c: Chain, a: Address, q: int, nonce: nat)
  {
    && ChainInv(c) && ParamsOk(c.params) && Total(c) < MAX_SUPPLY && c.params.gasPrice == 0 && |a| == ADDR_SIZE && a in c.world.accounts
    && c.world.accounts[a].nonce == nonce && AMOUNT_PER_POWER * q <= c.world.accounts[a].balance && EnoughFor(q, c.params)
    && c.world.delegatees.Get(a).None?
  }

  lemma WorthPower(q: nat)
    requires q < I63
    ensures AmountToPower(AMOUNT_PER_POWER * q) == Some(q) && AMOUNT_PER_POWER * q < SIGN_BIT
    ensures AMOUNT_PER_POWER * q / AMOUNT_PER_POWER == q && AMOUNT_PER_POWER * q % AMOUNT_PER_POWER == 0
  {
    PowerRoundTrip(q);
  }

  lemma StakeIsValid(c: Chain, a: Address, q: nat, tx: Tx)
    requires CanRemake(c, a, q, tx.nonce) && IsStakeOf(tx, a, q, tx.nonce)
    ensures Validate(Receiving(c, tx), tx, c.params)
  {
    WorthPower(q);
  }

  function Remade(a: Address, tx: Tx, h: int, q: int): Delegatee
  {
    WithStake(NewDelegatee(a, tx.pubKey), Stake(a, a, tx.hash, h + 1, 0, q))
  }

  lemma RemadePower(a: Address, tx: Tx, h: int, q: int)
    ensures StakedPower(Remade(a, tx, h, q)) == q
  {
    SumSeqAppend(Power, [], Stake(a, a, tx.hash, h + 1, 0, q));
  }

  lemma StakeLeaves(c: Chain, a: Address, q: nat, tx: Tx, w: World, r: World, h: int)
    requires CanRemake(c, a, q, tx.nonce) && IsStakeOf(tx, a, q, tx.nonce) && w == Receiving(c, tx) && h == c.height + 1
    requires RewardsUpTo(w.rewards, h) && Execute(w, tx, h, c.params) == (r, true)
    ensures r.delegatees == c.world.delegatees.Set(a, Remade(a, tx, h, q)) && r.accounts == Debit(c.world.accounts, a, tx.amount)
  {
    WorthPower(q);
  }

  lemma StakeOne(c: Chain, a: Address, q: nat, tx: Tx, h: int) returns (d: Chain)
    requires CanRemake(c, a, q, tx.nonce) && IsStakeOf(tx, a, q, tx.nonce) && NoCollision(c.used, tx) && h == c.height + 1
    ensures d == Deliver(c, tx).0 && ChainInv(d) && Total(d) < MAX_SUPPLY && d.params == c.params && d.height == c.height
    ensures d.books.overwritten == c.books.overwritten + Overwritten(c.world, a) && d.used == c.used[tx.hash := (tx.from, tx.nonce)]
    ensures d.world.delegatees == c.world.delegatees.Set(a, Remade(a, tx, h, q))
    ensures d.world.accounts == Counted(Debit(c.world.accounts, a, tx.amount), a)
  {
    StakeIsValid(c, a, q, tx);
    var w, r;
    w, r, d := NoFeeDelivery(c, tx);
    StakeLeaves(c, a, q, tx, w, r, h);
    assert Overwritten(w, a) == Overwritten(c.world, a);
  }

  /** A validator that is also an asset holder, before its first block. */
  ghost predicate OneValidator(c: Chain, v: GenesisValidator, balance: nat)
  {
    && ChainInv(c) && Total(c) < MAX_SUPPLY && ParamsOk(c.params) && c.params.gasPrice == 0 && |v.addr| == ADDR_SIZE
    && c.height == 0 && c.used == map[] && c.books.overwritten == 0
    && v.addr in c.world.accounts && c.world.accounts[v.addr] == NEW_ACCOUNT.(balance := balance)
    && c.world.delegatees == Overlay(map[], map[v.addr := GenesisDelegatee(v)], {})
  }

  lemma OneValidatorBegins(v: GenesisValidator, balance: nat, p: GovParams) returns (c: Chain)
    requires ParamsOk(p) && p.gasPrice == 0 && |v.addr| == ADDR_SIZE && v.power > 0 && balance + AMOUNT_PER_POWER * v.power < MAX_SUPPLY
    ensures c == InitChain([Holder(v.addr, balance)], [v], p) && OneValidator(c, v, balance)
  {
    var hs, vs := [Holder(v.addr, balance)], [v];
    c := InitChainIsInv(hs, vs, p);
    assert hs[..0] == [] && vs[..0] == [];
    assert HolderAccounts(map[], hs) == map[][v.addr := NEW_ACCOUNT.(balance := balance)];
    assert ValidatorAccounts(HolderAccounts(map[], hs), vs) == HolderAccounts(map[], hs);
    assert InitDelegatees(Fresh(map[]), vs) == Fresh(map[]).Set(v.addr, GenesisDelegatee(v));
    GenesisSupply(hs, vs);
    SumSeqAppend(HolderBalance, [], hs[0]);
    SumSeqAppend(ValidatorPower, [], v);
    assert [] + [hs[0]] == hs && [] + [v] == vs;
  }

  /** Unstake, stake, stake again. */
  predicate ThreeTxs(v: GenesisValidator, q: int, q': int, txs: seq<Tx>)
  {
    && |txs| == 3 && IsUnstakeOf(txs[0], v) && IsStakeOf(txs[1], v.addr, q, 1) && IsStakeOf(txs[2], v.addr, q', 2)
    && txs[0].hash != txs[1].hash && txs[0].hash != txs[2].hash && txs[1].hash != txs[2].hash
    && forall tx | tx in txs :: tx.hash != GENESIS_HASH
  }

  /** After the unstake: the deleted delegatee has left nothing behind. */
  ghost predicate Deleted(m: Chain, a: Address, balance: nat, q: int, first: Hash)
  {
    && CanRemake(m, a, q, 1) && m.books.overwritten == 0 && m.height == 0 && m.used.Keys == {first}
    && m.world.accounts[a].balance == balance && m.world.delegatees == Overlay(map[], map[], {a})
  }

  lemma IsDeleted(c: Chain, v: GenesisValidator, balance: nat, q: nat, m: Chain, first: Hash)
    requires OneValidator(c, v, balance) && EnoughFor(q, c.params) && AMOUNT_PER_POWER * q <= balance
    requires ChainInv(m) && Total(m) < MAX_SUPPLY && m.params == c.params && m.height == 0 && m.books.overwritten == 0 && m.used.Keys == {first}
    requires m.world.delegatees == c.world.delegatees.Del(v.addr) && m.world.accounts == Counted(c.world.accounts, v.addr)
    ensures Deleted(m, v.addr, balance, q, first)
  {
    assert map[v.addr := GenesisDelegatee(v)] - {v.addr} == map[];
  }

  lemma RemakeFirst(c: Chain, v: GenesisValidator, balance: nat, q: nat, q': nat, txs: seq<Tx>) returns (m: Chain)
    requires OneValidator(c, v, balance) && ThreeTxs(v, q, q', txs) && EnoughFor(q, c.params) && AMOUNT_PER_POWER * q <= balance
    ensures m == Deliver(c, txs[0]).0 && Deleted(m, v.addr, balance, q, txs[0].hash) && m.params == c.params
  {
    m := UnstakeOne(c, v, txs[0]);
    IsDeleted(c, v, balance, q, m, txs[0].hash);
  }

  /** After the first stake: the new delegatee is there, and reads as absent. */
  ghost predicate MadeAgain(n: Chain, a: Address, q: int, q': int)
  {
    CanRemake(n, a, q', 2) && n.books.overwritten == 0 && n.height == 0 && Overwritten(n.world, a) == q
  }

  lemma IsMadeAgain(m: Chain, a: Address, balance: nat, q: nat, q': nat, first: Hash, tx: Tx, n: Chain)
    requires Deleted(m, a, balance, q, first) && EnoughFor(q', m.params) && AMOUNT_PER_POWER * (q + q') <= balance && tx.amount == AMOUNT_PER_POWER * q
    requires ChainInv(n) && Total(n) < MAX_SUPPLY && n.params == m.params && n.height == 0 && n.books.overwritten == 0
    requires n.world.delegatees == m.world.delegatees.Set(a, Remade(a, tx, 1, q)) && n.world.accounts == Counted(Debit(m.world.accounts, a, tx.amount), a)
    ensures MadeAgain(n, a, q, q')
  {
    RemadePower(a, tx, 1, q);
  }

  lemma RemakeSecond(m: Chain, v: GenesisValidator, balance: nat, q: nat, q': nat, txs: seq<Tx>) returns (n: Chain)
    requires ThreeTxs(v, q, q', txs) && Deleted(m, v.addr, balance, q, txs[0].hash) && EnoughFor(q', m.params) && AMOUNT_PER_POWER * (q + q') <= balance
    ensures n == Deliver(m, txs[1]).0 && MadeAgain(n, v.addr, q, q') && NoCollision(n.used, txs[2])
  {
    assert txs[1] in txs && txs[2] in txs;
    n := StakeOne(m, v.addr, q, txs[1], 1);
    IsMadeAgain(m, v.addr, balance, q, q', txs[0].hash, txs[1], n);
  }

  lemma RemakeThird(n: Chain, a: Address, q: nat, q': nat, tx: Tx) returns (d: Chain)
    requires MadeAgain(n, a, q, q') && IsStakeOf(tx, a, q', 2) && NoCollision(n.used, tx)
    ensures d == Deliver(n, tx).0 && d.books.overwritten == q
  {
    d := StakeOne(n, a, q', tx, 1);
  }

  lemma ThreeDeliveries(c: Chain, txs: seq<Tx>)
    requires RewardsUpTo(c.world.rewards, c.height + 1) && |txs| == 3
    ensures DeliverAll(c, txs) == Deliver(Deliver(Deliver(c, txs[0]).0, txs[1]).0, txs[2]).0
  {
    assert [txs[0], txs[1]] + [txs[2]] == txs;
    TwoDeliveries(c, txs[0], txs[1]);
    DeliverLast(c, [txs[0], txs[1]], txs[2]);
  }

  lemma RemakeAll(c: Chain, v: GenesisValidator, balance: nat, q: nat, q': nat, txs: seq<Tx>)
    requires OneValidator(c, v, balance) && ThreeTxs(v, q, q', txs) && EnoughFor(q, c.params) && EnoughFor(q', c.params)
    requires AMOUNT_PER_POWER * (q + q') <= balance
    ensures DeliverAll(c, txs).books.overwritten == q
  {
    ThreeDeliveries(c, txs);
    var m := RemakeFirst(c, v, balance, q, q', txs);
    var n := RemakeSecond(m, v, balance, q, q', txs);
    var d := RemakeThird(n, v.addr, q, q', txs[2]);
  }

  lemma ThreeHashes(v: GenesisValidator, q: int, q': int, txs: seq<Tx>)
    requires ThreeTxs(v, q, q', txs)
    ensures NoCollisions(map[], txs)
  {
    assert forall tx | tx in txs :: tx == txs[0] || tx == txs[1] || tx == txs[2];
  }

  lemma FinishKeepsOverwritten(c: Chain, b: Block)
    requires CanFinish(c)
    ensures Finish(c, b).books.overwritten == c.books.overwritten
  {
  }

  /** A validator that unstakes and stakes twice in the same block: the power of its first new stake is lost for good. */
  lemma SecondStakeOverwrites(v: GenesisValidator, balance: nat, q: nat, q': nat, p: GovParams, blk: Block) returns (c: Chain, d: Chain)
    requires ParamsOk(p) && p.gasPrice == 0 && |v.addr| == ADDR_SIZE && v.power > 0 && balance + AMOUNT_PER_POWER * v.power < MAX_SUPPLY
    requires EnoughFor(q, p) && EnoughFor(q', p) && AMOUNT_PER_POWER * (q + q') <= balance
    requires blk.evidence == [] && blk.votes == [] && ThreeTxs(v, q, q', blk.txs)
    ensures c == InitChain([Holder(v.addr, balance)], [v], p) && Follows(c, blk, d) && d.books.overwritten == q
  {
    c := OneValidatorBegins(v, balance, p);
    d := RemakeRuns(c, v, balance, q, q', blk);
  }

  lemma RemakeRuns(c: Chain, v: GenesisValidator, balance: nat, q: nat, q': nat, blk: Block) returns (d: Chain)
    requires OneValidator(c, v, balance) && ThreeTxs(v, q, q', blk.txs) && EnoughFor(q, c.params) && EnoughFor(q', c.params)
    requires AMOUNT_PER_POWER * (q + q') <= balance && blk.evidence == [] && blk.votes == []
    ensures Follows(c, blk, d) && d.books.overwritten == q
  {
    NothingBegins(c, blk);
    RemakeAll(c, v, balance, q, q', blk.txs);
    ThreeHashes(v, q, q', blk.txs);
    assert BlockOk(c, blk);
    d := RunBlock(c, blk);
    FinishKeepsOverwritten(Delivered(c, blk), blk);
  }
}
