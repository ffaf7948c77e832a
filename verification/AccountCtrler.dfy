/**
 ctrlers/types/account.go, ctrlers/account/ctrler.go, ctrlers/types/block_ctx.go and
 node/trx_executor.go: native transactions on account objects. Sender, receiver and
 proposer can be the same object.
 */
module AccountCtrlers {
  import opened Prelude
  import opened Amounts
  import opened Delegatees
  import opened Accounts
  import opened GovernanceParams
  import opened Staking
  import opened Chains
  import opened Genesis

  class AccountObject {
    const address: Address
    var nonce: nat
    var balance: nat
    var name: string
    var docURL: string

    function View(): Account
      reads this
    {
      Account(nonce, balance, name, docURL)
    }

    constructor (address: Address)
      ensures View() == NEW_ACCOUNT && this.address == address
    {
      this.address := address;
      nonce, balance, name, docURL := 0, 0, "", "";
    }

    /** The sum wraps around at 2^256. */
    method AddBalance(amount: nat) returns (ok: bool)
      modifies this`balance
      ensures ok <==> amount < SIGN_BIT
      ensures balance == if ok then Add256(old(balance), amount) else old(balance)
    {
      if amount >= SIGN_BIT {
        return false;
      }
      balance := Add256(balance, amount);
      ok := true;
    }

    method SubBalance(amount: nat) returns (ok: bool)
      modifies this`balance
      ensures ok <==> amount < SIGN_BIT && amount <= old(balance)
      ensures balance == if ok then old(balance) - amount else old(balance)
    {
      if amount >= SIGN_BIT || amount > balance {
        return false;
      }
      balance := balance - amount;
      ok := true;
    }

    method SetDoc(name: string, url: string)
      modifies this`name, this`docURL
      ensures this.name == name && docURL == url
    {
      this.name := name;
      docURL := url;
    }
  }

  /**
   transfer on objects: taking from and giving to the same object, or to two. What SubBalance accepts AddBalance
   accepts too, so the refund of the source is never reached.
   */
  method Transfer(from: AccountObject, to: AccountObject, amount: nat) returns (ok: bool)
    requires from.balance < U256
    modifies from`balance, to`balance
    ensures ok <==> amount < SIGN_BIT && amount <= old(from.balance)
    ensures !ok ==> from.balance == old(from.balance) && to.balance == old(to.balance)
    ensures ok && from == to ==> from.balance == old(from.balance)
    ensures ok && from != to ==>
              from.balance == old(from.balance) - amount && to.balance == Add256(old(to.balance), amount)
  {
    ok := from.SubBalance(amount);
    if ok {
      ok := to.AddBalance(amount);
      assert ok;
    }
  }

  lemma TransferAt(book: Book, from: Address, to: Address, amount: nat, a: Address)
    requires from in book && to in book && a in book && amount <= book[from].balance < U256
    ensures var r := ExeTransfer(book, from, to, amount).0;
            && r.Keys == book.Keys
            && r[a] == if from == to || (a != from && a != to) then book[a]
                       else book[a].(balance := if a == from then book[a].balance - amount else Add256(book[a].balance, amount))
  {
  }

  class AcctCtrler {
    /** The account objects that the finality layer of the ledger hands out, one for each address. */
    var ledger: map<Address, AccountObject>
    /** BlockContext's sum of the fees. */
    var feeSum: nat

    ghost predicate Valid()
      reads this`ledger, ledger.Values
    {
      && (forall a | a in ledger :: ledger[a].address == a && ledger[a].balance < U256)
      && forall a, b | a in ledger && b in ledger && a != b :: ledger[a] != ledger[b]
    }

    ghost function View(): Book
      reads this`ledger, ledger.Values
    {
      map a | a in ledger :: ledger[a].View()
    }

    method SetHolder(h: Holder)
      requires Valid() && h.balance < U256
      modifies this`ledger
      ensures Valid() && View() == old(View())[h.address := NEW_ACCOUNT.(balance := h.balance)]
    {
      ghost var before := View();
      var acct := new AccountObject(h.address);
      acct.balance := h.balance;
      ledger := ledger[h.address := acct];
      assert View() == before[h.address := acct.View()];
    }

    /** The accounts of the asset holders, one after the other. */
    method InitLedger(holders: seq<Holder>)
      requires Valid() && forall h | h in holders :: h.balance < U256
      modifies this`ledger
      ensures Valid() && View() == HolderAccounts(old(View()), holders)
    {
      ghost var start := View();
      for i := 0 to |holders|
        invariant Valid() && View() == HolderAccounts(start, holders[..i])
      {
        assert holders[..i + 1][..i] == holders[..i];
        SetHolder(holders[i]);
      }
      assert holders[..|holders|] == holders;
    }

    method FindOrNewAccount(addr: Address) returns (acct: AccountObject)
      requires Valid()
      modifies this`ledger
      ensures Valid() && View() == FindOrNew(old(View()), addr)
      ensures addr in ledger && ledger[addr] == acct
      ensures forall a | a in old(ledger) :: a in ledger && ledger[a] == old(ledger)[a]
      ensures addr !in old(ledger) ==> fresh(acct)
      ensures ledger.Keys == old(ledger.Keys) + {addr}
    {
      if addr in ledger {
        return ledger[addr];
      }
      acct := new AccountObject(addr);
      ledger := ledger[addr := acct];
    }

    /** ExecuteTrx for a transfer, with its sender and receiver looked up beforehand. */
    method ExecuteTransfer(from: Address, to: Address, amount: nat) returns (ok: bool)
      requires Valid() && from in ledger && to in ledger && amount < SIGN_BIT
      modifies set a | a in ledger :: ledger[a]
      ensures Valid() && (View(), ok) == ExeTransfer(old(View()), from, to, amount)
    {
      ghost var before := View();
      ok := Transfer(ledger[from], ledger[to], amount);
      if ok {
        ghost var after := ExeTransfer(before, from, to, amount).0;
        forall a | a in ledger ensures a in after && ledger[a].View() == after[a] { TransferAt(before, from, to, amount, a); }
        assert View() == after;
      } else {
        assert View() == before;
      }
    }

    /** ExecuteTrx for a document. */
    method ExecuteSetDoc(from: Address, name: string, url: string)
      requires Valid() && from in ledger
      modifies ledger[from]
      ensures Valid() && View() == old(View())[from := old(View())[from].(name := name, docURL := url)]
    {
      ledger[from].SetDoc(name, url);
    }

    /** postRunTrx: the fee is taken and the nonce moves on, or nothing happens. */
    method PostRun(tx: Tx) returns (ok: bool)
      requires Valid() && tx.from in ledger
      modifies ledger[tx.from]
      ensures Valid() && ok == (Fee(tx) <= old(View())[tx.from].balance && Fee(tx) < SIGN_BIT)
      ensures View() == if ok then ChargeFee(old(View()), tx) else old(View())
    {
      ghost var before := View();
      var sender := ledger[tx.from];
      ok := sender.SubBalance(Fee(tx));
      if ok {
        sender.nonce := sender.nonce + 1;
      }
      assert View() == before[tx.from := sender.View()];
    }

    /** Whether a native transaction is valid, as its sender's account object stands. */
    method ValidateNative(tx: Tx, p: GovParams, ghost w: World) returns (ok: bool)
      requires IsNative(tx) && Valid() && tx.from in ledger && w.accounts == View()
      ensures ok == Validate(w, tx, p)
    {
      var sender := ledger[tx.from];
      ok := CommonValidation0(tx, p) && Add256(Fee(tx), tx.amount) <= sender.balance && sender.nonce == tx.nonce && PayloadOk(tx);
    }

    method RunNative(tx: Tx, ghost w: World, h: int, p: GovParams) returns (ok: bool)
      requires IsNative(tx) && Valid() && tx.from in ledger && tx.to in ledger && tx.amount < SIGN_BIT
      requires w.accounts == View() && RewardsUpTo(w.rewards, h)
      modifies set a | a in ledger :: ledger[a]
      ensures Valid() && (w.(accounts := View()), ok) == Execute(w, tx, h, p)
    {
      match tx.kind
      case TrxTransfer => ok := ExecuteTransfer(tx.from, tx.to, tx.amount);
      case TrxSetDoc(name, url) =>
        ExecuteSetDoc(tx.from, name, url);
        ok := true;
      case TrxGovernance => ok := true;
    }

    method CreditTo(addr: Address, amount: nat)
      requires Valid() && addr in ledger && amount < SIGN_BIT
      modifies ledger[addr]
      ensures Valid() && View() == Credit(old(View()), addr, amount)
    {
      ghost var before := View();
      var _ := ledger[addr].AddBalance(amount);
      assert View() == before[addr := ledger[addr].View()];
    }

    /** EndBlock: the fees of the block go to the proposer's account, which is made if there is none. */
    method PayFees(proposer: Option<Address>, ghost c: Chain)
      requires Valid() && c.world.accounts == View() && c.fees == feeSum
      modifies this`ledger, set a | a in ledger :: ledger[a]
      ensures Valid() && View() == PayProposer(c, proposer).world.accounts
    {
      if proposer.Some? && 0 < feeSum < SIGN_BIT {
        var _ := FindOrNewAccount(proposer.value);
        CreditTo(proposer.value, feeSum);
      }
    }

    /** runTrx with postRunTrx for a validated transaction, and the fee added to the block's. */
    method ExecuteNative(tx: Tx, ghost w: World, h: int, p: GovParams) returns (outcome: Delivery)
      requires IsNative(tx) && Valid() && tx.from in ledger && tx.to in ledger && tx.amount < SIGN_BIT
      requires w.accounts == View() && RewardsUpTo(w.rewards, h)
      modifies this`feeSum, set a | a in ledger :: ledger[a]
      ensures Valid() && (View(), outcome) == AfterRun(Execute(w, tx, h, p), tx)
      ensures feeSum == if outcome == Executed then Add256(old(feeSum), Mul256(tx.gas, p.gasPrice)) else old(feeSum)
    {
      ghost var run := Execute(w, tx, h, p);
      var ok := RunNative(tx, w, h, p);
      assert run.1 == ok && run.0.accounts == View();
      if !ok {
        return FailedRun;
      }
      ok := PostRun(tx);
      if !ok {
        return UnpaidRun;
      }
      feeSum := Add256(feeSum, Mul256(tx.gas, p.gasPrice));
      outcome := Executed;
    }

    /** deliverTxSync for a native transaction: what Deliver says, done on the account objects. */
    method DeliverNative(tx: Tx, h: int, p: GovParams, ghost c: Chain) returns (outcome: Delivery)
      requires IsNative(tx) && Valid() && c.world.accounts == View() && c.fees == feeSum
      requires c.params == p && c.height + 1 == h && RewardsUpTo(c.world.rewards, h)
      modifies this`ledger, this`feeSum, set a | a in ledger :: ledger[a]
      ensures Valid() && outcome == Deliver(c, tx).1
      ensures View() == Deliver(c, tx).0.world.accounts && feeSum == Deliver(c, tx).0.fees
    {
      if tx.from !in ledger {
        return Rejected;
      }
      var _ := FindOrNewAccount(tx.to);
      ghost var w := c.world.(accounts := View());
      var ok := ValidateNative(tx, p, w);
      if !ok {
        return Rejected;
      }
      outcome := ExecuteNative(tx, w, h, p);
      DeliverRuns(c, tx, w);
    }
  }

  /** What the accounts are after a run, with the result of the delivery. */
  function AfterRun(r: (World, bool), tx: Tx): (Book, Delivery)
  {
    var (w, ok) := r;
    if !ok then (w.accounts, FailedRun)
    else if tx.from !in w.accounts || Fee(tx) > w.accounts[tx.from].balance || Fee(tx) >= SIGN_BIT then (w.accounts, UnpaidRun)
    else (ChargeFee(w.accounts, tx), Executed)
  }

  lemma DeliverRuns(c: Chain, tx: Tx, w: World)
    requires RewardsUpTo(c.world.rewards, c.height + 1) && tx.from in c.world.accounts
    requires w == c.world.(accounts := FindOrNew(c.world.accounts, tx.to)) && Validate(w, tx, c.params)
    ensures var d := Deliver(c, tx);
            && (d.0.world.accounts, d.1) == AfterRun(Execute(w, tx, c.height + 1, c.params), tx)
            && d.0.fees == if d.1 == Executed then Add256(c.fees, Mul256(tx.gas, c.params.gasPrice)) else c.fees
  {
  }

  /** The transactions of the account controller, and those of governance, which move no coins but the fee. */
  predicate IsNative(tx: Tx)
  {
    tx.kind.TrxTransfer? || tx.kind.TrxSetDoc? || tx.kind.TrxGovernance?
  }

  predicate PayloadOk(tx: Tx)
    requires IsNative(tx)
  {
    match tx.kind
    case TrxTransfer => true
    case TrxSetDoc(name, url) => |name| <= MAX_DOC && |url| <= MAX_DOC
    case TrxGovernance => tx.handlerOk
  }
}
