/**
 node/trx_executor.go, node/app.go and ctrlers/account/ctrler.go: blocks of native
 transactions on top of the staking controller. A block is BeginBlock with its evidence
 and votes, the delivery of its transactions, EndBlock and Commit.
 */
module Chains {
  import opened Prelude
  import opened Overlays
  import opened Amounts
  import opened Delegatees
  import opened Accounts
  import opened GovernanceParams
  import opened Staking

  const ADDR_SIZE := 20

  datatype Kind =
    | TrxTransfer
    | TrxSetDoc(name: string, url: string)
    | TrxGovernance
    | TrxStaking
    | TrxUnstaking(stakeHash: Hash)
    | TrxWithdraw(request: Amount256)

  /**
   A decoded transaction. Whether its signature verifies, and what the governance controller or the stake
   limiter says to it, are part of the input: the results hold whatever they say.
   */
  datatype Tx = Tx(
    kind: Kind, from: Address, to: Address, amount: nat, gas: nat, gasPrice: nat, nonce: nat,
    hash: Hash, pubKey: Bytes, signatureOk: bool, handlerOk: bool)

  function Fee(tx: Tx): nat
  {
    Mul256(tx.gasPrice, tx.gas)
  }

  // ----- Validation -----

  predicate CommonValidation0(tx: Tx, p: GovParams)
  {
    && |tx.from| == ADDR_SIZE && |tx.to| == ADDR_SIZE
    && tx.amount < SIGN_BIT
    && tx.gas < I63
    && tx.gasPrice < SIGN_BIT && tx.gasPrice == p.gasPrice
    && Fee(tx) >= Mul256(p.minTrxGas, p.gasPrice)
    && tx.signatureOk
  }

  predicate CommonValidation1(sender: Account, tx: Tx)
  {
    Add256(Fee(tx), tx.amount) <= sender.balance && sender.nonce == tx.nonce
  }

  predicate ValidStake(w: World, tx: Tx, p: GovParams)
  {
    var power := AmountToPower(tx.amount);
    var found := w.delegatees.Get(tx.to);
    && tx.amount / AMOUNT_PER_POWER > 0 && tx.amount % AMOUNT_PER_POWER == 0
    && power.Some?
    && (if tx.from == tx.to then
          var min := AmountToPower(p.minValidatorStake);
          min.Some? && power.value + (if found.Some? then found.value.selfPower else 0) >= min.value
        else
          && found.Some?
          && (var min := AmountToPower(p.minDelegatorStake);
              min.Some? && !(min.value > 0 && min.value > power.value))
          && found.value.totalPower + power.value > 0
          && Quo(found.value.selfPower * 100, found.value.totalPower + power.value) >= p.minSelfStakeRatio)
    && tx.handlerOk
  }

  const MAX_DOC := 2048

  predicate ValidByKind(w: World, tx: Tx, p: GovParams)
  {
    match tx.kind
    case TrxTransfer => true
    case TrxSetDoc(name, url) => |name| <= MAX_DOC && |url| <= MAX_DOC
    case TrxGovernance => tx.handlerOk
    case TrxStaking => ValidStake(w, tx, p)
    case TrxUnstaking(stakeHash) => CanUnstake(w, tx.from, tx.to, stakeHash) && tx.handlerOk
    case TrxWithdraw(request) =>
      var reward := w.rewards.Get(tx.from);
      tx.amount == 0 && reward.Some? && request <= reward.value.cumulated
  }

  predicate Validate(w: World, tx: Tx, p: GovParams)
    requires tx.from in w.accounts
  {
    CommonValidation0(tx, p) && CommonValidation1(w.accounts[tx.from], tx) && ValidByKind(w, tx, p)
  }

  // ----- Execution -----

  /** transfer: the receiver may be the sender. */
  function ExeTransfer(book: Book, from: Address, to: Address, amount: nat): (Book, bool)
    requires from in book && to in book
  {
    if amount > book[from].balance then (book, false) else (Credit(Debit(book, from, amount), to, amount), true)
  }

  function Execute(w: World, tx: Tx, h: int, p: GovParams): (World, bool)
    requires tx.from in w.accounts && tx.to in w.accounts && RewardsUpTo(w.rewards, h)
    ensures RewardsUpTo(Execute(w, tx, h, p).0.rewards, h)
  {
    match tx.kind
    case TrxTransfer =>
      var (book, ok) := ExeTransfer(w.accounts, tx.from, tx.to, tx.amount);
      (w.(accounts := book), ok)
    case TrxSetDoc(name, url) =>
      (w.(accounts := w.accounts[tx.from := w.accounts[tx.from].(name := name, docURL := url)]), true)
    case TrxGovernance => (w, true)
    case TrxStaking => ExeStaking(w, tx.from, tx.to, tx.amount, tx.hash, tx.pubKey, h)
    case TrxUnstaking(stakeHash) => ExeUnstaking(w, tx.from, tx.to, stakeHash, h + p.lazyRewardBlocks)
    case TrxWithdraw(request) => ExeWithdraw(w, tx.from, request, h)
  }

  /** postRunTrx: the fee is taken and the nonce moves on. */
  function ChargeFee(book: Book, tx: Tx): Book
    requires tx.from in book && Fee(tx) <= book[tx.from].balance
  {
    var a := book[tx.from];
    book[tx.from := a.(balance := a.balance - Fee(tx), nonce := a.nonce + 1)]
  }

  // ----- The chain -----

  /** Running totals since genesis, kept beside the program's own state, and the powers of the genesis stakes frozen so far. */
  datatype Books = Books(
    issued: int, withdrawn: int, destroyed: int, overwritten: int, collided: int, unpaidFees: int, genesisFrozen: seq<int>)

  /** What freezing adds to the running totals. */
  function TallyFreeze(b: Books, f: Overlay<Hash, Stake>, stakes: seq<Stake>, refundHeight: int): Books
  {
    b.(collided := b.collided + Clashed(f, stakes, refundHeight), genesisFrozen := b.genesisFrozen + GenesisPowers(stakes))
  }

  /** history holds the committed delegatees of every height, used the hash of every executed transaction with its sender and nonce. */
  datatype Chain = Chain(
    world: World, fees: nat, height: nat, params: GovParams, history: seq<map<Address, Delegatee>>,
    used: map<Hash, (Address, nat)>, books: Books, executed: seq<(Address, nat)>)

  datatype Delivery = Rejected | FailedRun | UnpaidRun | Executed

  /** deliverTxSync with ExecuteSync, in the block after height c.height. */
  function Deliver(c: Chain, tx: Tx): (Chain, Delivery)
    requires RewardsUpTo(c.world.rewards, c.height + 1)
    ensures var d := Deliver(c, tx).0;
            RewardsUpTo(d.world.rewards, c.height + 1) && d.height == c.height && d.history == c.history && d.params == c.params
  {
    if tx.from !in c.world.accounts then (c, Rejected)
    else
      var w := c.world.(accounts := FindOrNew(c.world.accounts, tx.to));
      if !Validate(w, tx, c.params) then (c.(world := w), Rejected)
      else
        var (w1, ok) := Execute(w, tx, c.height + 1, c.params);
        if !ok then (c.(world := w1), FailedRun)
        else if tx.from !in w1.accounts || Fee(tx) > w1.accounts[tx.from].balance || Fee(tx) >= SIGN_BIT then (c.(world := w1), UnpaidRun)
        else
          (c.(world := w1.(accounts := ChargeFee(w1.accounts, tx)),
              fees := Add256(c.fees, Mul256(tx.gas, c.params.gasPrice)),
              used := c.used[tx.hash := (tx.from, tx.nonce)],
              books := Tally(c.books, w, tx, c.height + 1 + c.params.lazyRewardBlocks),
              executed := c.executed + [(tx.from, tx.nonce)]), Executed)
  }

  /** What an executed transaction adds to the running totals. */
  function Tally(b: Books, w: World, tx: Tx, refundHeight: int): Books
  {
    match tx.kind
    case TrxStaking => b.(overwritten := b.overwritten + Overwritten(w, tx.to))
    case TrxUnstaking(stakeHash) =>
      if !CanUnstake(w, tx.from, tx.to, stakeHash) then b
      else TallyFreeze(b, w.frozen, UnstakedWith(w.delegatees.working[tx.to], stakeHash), refundHeight)
    case TrxWithdraw(request) => b.(withdrawn := b.withdrawn + request)
    case _ => b
  }

  // ----- Blocks -----

  function PunishAll(w: World, evidence: seq<Address>, ratio: int): World
  {
    if evidence == [] then w else Punish(PunishAll(w, evidence[..|evidence| - 1], ratio), evidence[|evidence| - 1], ratio)
  }

  function DestroyedBy(w: World, evidence: seq<Address>, ratio: int): int
  {
    if evidence == [] then 0
    else
      var front := evidence[..|evidence| - 1];
      DestroyedBy(w, front, ratio) + Destroyed(PunishAll(w, front, ratio), evidence[|evidence| - 1], ratio)
  }

  /** The version of the delegatees that the votes seen in block h were made with; version 0 loads the latest. */
  function RewardVersion(history: seq<map<Address, Delegatee>>, h: int): Option<map<Address, Delegatee>>
  {
    var v := if h - 4 < 0 then 1 else if h - 4 == 0 then |history| else h - 4;
    if 1 <= v <= |history| then Some(history[v - 1]) else None
  }

  function ProcessVotes(w: World, votes: seq<VoteInfo>, immutable: map<Address, Delegatee>, h: int, p: GovParams): (r: World)
    requires RewardsUpTo(w.rewards, h) && AllSound(immutable)
    ensures RewardsUpTo(r.rewards, h)
  {
    if votes == [] then w
    else ProcessVote(ProcessVotes(w, votes[..|votes| - 1], immutable, h, p), votes[|votes| - 1], immutable, h, p)
  }

  /** What the votes of a block issue. */
  function IssuedBy(votes: seq<VoteInfo>, immutable: map<Address, Delegatee>, perPower: nat): int
  {
    if votes == [] then 0
    else IssuedBy(votes[..|votes| - 1], immutable, perPower) + perPower * SumPower(Rewarded(immutable, votes[|votes| - 1]))
  }

  datatype Block = Block(
    evidence: seq<Address>, votes: seq<VoteInfo>, txs: seq<Tx>, proposer: Option<Address>, nextParams: GovParams)

  ghost predicate HistorySound(history: seq<map<Address, Delegatee>>)
  {
    forall m | m in history :: AllSound(m)
  }

  function IssueOf(c: Chain, b: Block): int
  {
    var version := RewardVersion(c.history, c.height + 1);
    if version.None? then 0 else IssuedBy(b.votes, version.value, c.params.rewardPerPower)
  }

  function AfterEvidence(c: Chain, evidence: seq<Address>): (r: Chain)
    ensures r.world.rewards == c.world.rewards && r.history == c.history && r.height == c.height && r.params == c.params
  {
    PunishAllKeepsRewards(c.world, evidence, c.params.slashRatio);
    c.(world := PunishAll(c.world, evidence, c.params.slashRatio),
       books := c.books.(destroyed := c.books.destroyed + DestroyedBy(c.world, evidence, c.params.slashRatio)))
  }

  function VoteBooks(b: Books, w: World, v: VoteInfo, immutable: map<Address, Delegatee>, h: int, p: GovParams): Books
  {
    TallyFreeze(b.(issued := b.issued + p.rewardPerPower * SumPower(Rewarded(immutable, v))),
                w.frozen, FrozenByVote(w, v, h, p), h + p.lazyRewardBlocks)
  }

  function AfterVote(c: Chain, v: VoteInfo, immutable: map<Address, Delegatee>, h: int, p: GovParams): Chain
    requires RewardsUpTo(c.world.rewards, h) && AllSound(immutable)
  {
    c.(world := ProcessVote(c.world, v, immutable, h, p), books := VoteBooks(c.books, c.world, v, immutable, h, p))
  }

  function AfterVotes(c: Chain, votes: seq<VoteInfo>, immutable: map<Address, Delegatee>, h: int, p: GovParams): (r: Chain)
    requires RewardsUpTo(c.world.rewards, h) && AllSound(immutable)
    ensures RewardsUpTo(r.world.rewards, h) && r.height == c.height && r.params == c.params
  {
    if votes == [] then c else AfterVote(AfterVotes(c, votes[..|votes| - 1], immutable, h, p), votes[|votes| - 1], immutable, h, p)
  }

  /** The votes change the world as ProcessVotes says. */
  lemma {:induction false} VotesChangeWorld(c: Chain, votes: seq<VoteInfo>, immutable: map<Address, Delegatee>, h: int, p: GovParams)
    requires RewardsUpTo(c.world.rewards, h) && AllSound(immutable)
    ensures AfterVotes(c, votes, immutable, h, p).world == ProcessVotes(c.world, votes, immutable, h, p)
  {
    if votes != [] { VotesChangeWorld(c, votes[..|votes| - 1], immutable, h, p); }
  }

  /** Without a version of the delegatees to look at, the votes are skipped. */
  function BeginBlock(c: Chain, b: Block): (r: Chain)
    requires RewardsUpTo(c.world.rewards, c.height + 1) && HistorySound(c.history)
    ensures RewardsUpTo(r.world.rewards, c.height + 1) && r.height == c.height && r.params == c.params
  {
    var judged := AfterEvidence(c, b.evidence);
    match RewardVersion(c.history, c.height + 1)
    case None => judged
    case Some(immutable) => AfterVotes(judged, b.votes, immutable, c.height + 1, c.params)
  }

  lemma {:induction false} PunishAllKeepsRewards(w: World, evidence: seq<Address>, ratio: int)
    ensures PunishAll(w, evidence, ratio).rewards == w.rewards
  {
    if evidence != [] { PunishAllKeepsRewards(w, evidence[..|evidence| - 1], ratio); }
  }

  function DeliverAll(c: Chain, txs: seq<Tx>): (r: Chain)
    requires RewardsUpTo(c.world.rewards, c.height + 1)
    ensures RewardsUpTo(r.world.rewards, r.height + 1) && r.height == c.height && r.history == c.history && r.params == c.params
  {
    if txs == [] then c else Deliver(DeliverAll(c, txs[..|txs| - 1]), txs[|txs| - 1]).0
  }

  /** The fees of the block go to its proposer; without one, or from 2^255 on, they are not paid to anybody. */
  function PayProposer(c: Chain, proposer: Option<Address>): Chain
  {
    if c.fees == 0 then c
    else if proposer.None? || c.fees >= SIGN_BIT then c.(fees := 0, books := c.books.(unpaidFees := c.books.unpaidFees + c.fees))
    else
      var book := FindOrNew(c.world.accounts, proposer.value);
      c.(fees := 0, world := c.world.(accounts := Credit(book, proposer.value, c.fees)))
  }

  ghost function EndBlock(c: Chain, b: Block): (Chain, bool)
    requires forall k | k in c.world.frozen.committed :: c.world.frozen.committed[k].power >= 0
  {
    var paid := PayProposer(c, b.proposer);
    var f := paid.world.frozen;
    AnyOrderLists(f.committed.Keys);
    var ks := AnyOrder(f.committed.Keys);
    var (w, ok) := Unfreeze(paid.world, ks, c.height + 1);
    (paid.(world := w, books := paid.books.(collided := paid.books.collided + Misrefunded(f, ks, c.height + 1))), ok)
  }

  function CommitBlock(c: Chain, b: Block): Chain
  {
    c.(world := CommitWorld(c.world), height := c.height + 1, params := b.nextParams,
       history := c.history + [c.world.delegatees.working])
  }
}
