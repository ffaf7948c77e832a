/**
 node/app.go, ctrlers/account/ctrler.go and ctrlers/stake/ctrler.go: the chain that InitChain makes. Asset holders get
 their balances, every validator gets an account and a delegatee with one stake of its own; all of it is pending until
 the first block is committed.
 */
module Genesis {
  import opened Prelude
  import opened Overlays
  import opened Amounts
  import opened Delegatees
  import opened Accounts
  import opened GovernanceParams
  import opened Staking
  import opened Conservation
  import opened Chains
  import opened ChainLaws

  datatype Holder = Holder(address: Address, balance: nat)

  datatype GenesisValidator = GenesisValidator(addr: Address, pubKey: Bytes, power: int)

  /** A holder listed twice has the balance listed last. */
  function HolderAccounts(book: Book, holders: seq<Holder>): Book
  {
    if holders == [] then book
    else
      var h := holders[|holders| - 1];
      HolderAccounts(book, holders[..|holders| - 1])[h.address := NEW_ACCOUNT.(balance := h.balance)]
  }

  function ValidatorAccounts(book: Book, vals: seq<GenesisValidator>): Book
  {
    if vals == [] then book else FindOrNew(ValidatorAccounts(book, vals[..|vals| - 1]), vals[|vals| - 1].addr)
  }

  function GenesisStake(v: GenesisValidator): Stake
  {
    Stake(v.addr, v.addr, GENESIS_HASH, 1, 0, v.power)
  }

  function GenesisDelegatee(v: GenesisValidator): Delegatee
  {
    WithStake(NewDelegatee(v.addr, v.pubKey), GenesisStake(v))
  }

  /** InitLedger of the staking controller. */
  function InitDelegatees(ds: Overlay<Address, Delegatee>, vals: seq<GenesisValidator>): Overlay<Address, Delegatee>
  {
    if vals == [] then ds
    else InitDelegatees(ds, vals[..|vals| - 1]).Set(vals[|vals| - 1].addr, GenesisDelegatee(vals[|vals| - 1]))
  }

  function InitWorld(holders: seq<Holder>, vals: seq<GenesisValidator>): World
  {
    World(ValidatorAccounts(HolderAccounts(map[], holders), vals), InitDelegatees(Fresh(map[]), vals), Fresh(map[]), Fresh(map[]))
  }

  function InitChain(holders: seq<Holder>, vals: seq<GenesisValidator>, p: GovParams): Chain
  {
    Chain(InitWorld(holders, vals), 0, 0, p, [], map[], Books(0, 0, 0, 0, 0, 0, []), [])
  }

  ghost predicate PowersOk(vals: seq<GenesisValidator>)
  {
    forall v | v in vals :: v.power >= 0
  }

  lemma GenesisDelegateeHolds(v: GenesisValidator, owners: set<Address>)
    requires v.power >= 0 && v.addr in owners
    ensures Holds(GenesisDelegatee(v), v.addr, owners, {GENESIS_HASH}) && GenesisDelegatee(v).stakes == [GenesisStake(v)]
  {
    AddStakeKeepsSound(NewDelegatee(v.addr, v.pubKey), GenesisStake(v));
  }

  /** Every validator of genesis has an account, and the pending delegatees are exactly those of genesis. */
  lemma {:induction false} InitDelegateesHold(book: Book, vals: seq<GenesisValidator>)
    requires PowersOk(vals)
    ensures var ds := InitDelegatees(Fresh(map[]), vals);
            && ds.committed == map[] && ds.dead == {}
            && AllHold(ds.working, ValidatorAccounts(book, vals).Keys, {GENESIS_HASH})
            && forall a | a in ds.working :: exists v :: v in vals && v.addr == a && ds.working[a] == GenesisDelegatee(v)
  {
    if vals != [] {
      var front, v := vals[..|vals| - 1], vals[|vals| - 1];
      assert forall x | x in front :: x in vals;
      assert v in vals;
      InitDelegateesHold(book, front);
      GenesisDelegateeHolds(v, ValidatorAccounts(book, vals).Keys);
    }
  }

  /** The chain that InitChain makes satisfies the invariant that every block keeps, and nothing of it is committed yet. */
  lemma InitChainIsInv(holders: seq<Holder>, vals: seq<GenesisValidator>, p: GovParams) returns (c: Chain)
    requires PowersOk(vals)
    ensures c == InitChain(holders, vals, p) && ChainInv(c)
    ensures c.world.delegatees.committed == map[] && c.world.frozen == Fresh(map[]) && c.world == InitWorld(holders, vals)
    ensures c.height == 0 && c.fees == 0 && c.history == [] && c.books == Books(0, 0, 0, 0, 0, 0, []) && c.world.rewards.working == map[]
    ensures forall a | a in c.world.delegatees.working :: c.world.delegatees.working[a].notSignedHeights == []
  {
    c := InitChain(holders, vals, p);
    InitDelegateesHold(HolderAccounts(map[], holders), vals);
  }

  predicate DistinctHolders(holders: seq<Holder>)
  {
    forall i, j | 0 <= i < j < |holders| :: holders[i].address != holders[j].address
  }

  predicate DistinctValidators(vals: seq<GenesisValidator>)
  {
    forall i, j | 0 <= i < j < |vals| :: vals[i].addr != vals[j].addr
  }

  lemma {:induction false} HoldersHave(holders: seq<Holder>, a: Address)
    requires DistinctHolders(holders)
    ensures forall h | h in holders && h.address == a ::
              a in HolderAccounts(map[], holders) && HolderAccounts(map[], holders)[a] == Account(0, h.balance, "", "")
    ensures a in HolderAccounts(map[], holders) ==> exists h | h in holders :: h.address == a
  {
    if holders != [] { HoldersHave(holders[..|holders| - 1], a); }
  }

  lemma {:induction false} ValidatorsHave(book: Book, vals: seq<GenesisValidator>, a: Address)
    ensures a in book ==> a in ValidatorAccounts(book, vals) && ValidatorAccounts(book, vals)[a] == book[a]
    ensures a !in book && a in ValidatorAccounts(book, vals) ==>
              (exists v | v in vals :: v.addr == a) && ValidatorAccounts(book, vals)[a] == Account(0, 0, "", "")
    ensures forall v | v in vals && v.addr == a :: a in ValidatorAccounts(book, vals)
  {
    if vals != [] { ValidatorsHave(book, vals[..|vals| - 1], a); }
  }

  /** Every asset holder has the balance of genesis, every other validator an empty account, and nobody else has one. */
  lemma GenesisAccounts(holders: seq<Holder>, vals: seq<GenesisValidator>, p: GovParams, a: Address)
    requires DistinctHolders(holders)
    ensures var book := InitChain(holders, vals, p).world.accounts;
            && (forall h | h in holders && h.address == a :: a in book && book[a] == Account(0, h.balance, "", ""))
            && (a in book && (forall h | h in holders :: h.address != a) ==> book[a] == Account(0, 0, "", ""))
            && (a in book <==> (exists h | h in holders :: h.address == a) || (exists v | v in vals :: v.addr == a))
  {
    HoldersHave(holders, a);
    ValidatorsHave(HolderAccounts(map[], holders), vals, a);
  }

  /** Every validator of genesis has a delegatee with one stake, its own, of the power of genesis. */
  lemma {:induction false} GenesisDelegatees(vals: seq<GenesisValidator>, v: GenesisValidator)
    requires DistinctValidators(vals) && v in vals
    ensures var ds := InitDelegatees(Fresh(map[]), vals).working;
            v.addr in ds && ds[v.addr] == Delegatee(v.addr, v.pubKey, v.power, v.power, 0, [Stake(v.addr, v.addr, GENESIS_HASH, 1, 0, v.power)], [])
  {
    if v != vals[|vals| - 1] {
      assert v in vals[..|vals| - 1];
      GenesisDelegatees(vals[..|vals| - 1], v);
    }
  }

  // ----- What genesis is worth -----

  function HolderBalance(h: Holder): int
  {
    h.balance
  }

  function ValidatorPower(v: GenesisValidator): int
  {
    v.power
  }

  lemma {:induction false} HoldersAreWorth(holders: seq<Holder>)
    requires DistinctHolders(holders)
    ensures TotalBalance(HolderAccounts(map[], holders)) == SumSeq(HolderBalance, holders)
    ensures forall a | a in HolderAccounts(map[], holders) :: exists h :: h in holders && h.address == a
  {
    if holders != [] {
      var front, h := holders[..|holders| - 1], holders[|holders| - 1];
      assert holders == front + [h];
      HoldersAreWorth(front);
      SumSeqAppend(HolderBalance, front, h);
      var book := HolderAccounts(map[], front);
      assert h.address !in book;
      SumMapUpdate(Balance, book, h.address, NEW_ACCOUNT.(balance := h.balance));
    }
  }

  lemma {:induction false} ValidatorAccountsAddNothing(book: Book, vals: seq<GenesisValidator>)
    ensures TotalBalance(ValidatorAccounts(book, vals)) == TotalBalance(book)
  {
    if vals != [] {
      ValidatorAccountsAddNothing(book, vals[..|vals| - 1]);
      NewAccountAddsNothing(ValidatorAccounts(book, vals[..|vals| - 1]), vals[|vals| - 1].addr);
    }
  }

  lemma {:induction false} DelegateesAreWorth(vals: seq<GenesisValidator>)
    requires DistinctValidators(vals)
    ensures SumMap(StakedPower, InitDelegatees(Fresh(map[]), vals).working) == SumSeq(ValidatorPower, vals)
    ensures forall a | a in InitDelegatees(Fresh(map[]), vals).working :: exists v :: v in vals && v.addr == a
  {
    if vals != [] {
      var front, v := vals[..|vals| - 1], vals[|vals| - 1];
      assert vals == front + [v];
      DelegateesAreWorth(front);
      SumSeqAppend(ValidatorPower, front, v);
      var ds := InitDelegatees(Fresh(map[]), front).working;
      assert v.addr !in ds;
      SumSeqAppend(Power, [], GenesisStake(v));
      SumMapUpdate(StakedPower, ds, v.addr, GenesisDelegatee(v));
    }
  }

  /** Without repetitions, genesis is worth the balances of its holders and the power of its validators. */
  lemma GenesisSupply(holders: seq<Holder>, vals: seq<GenesisValidator>)
    requires DistinctHolders(holders) && DistinctValidators(vals)
    ensures Supply(InitWorld(holders, vals)) == SumSeq(HolderBalance, holders) + AMOUNT_PER_POWER * SumSeq(ValidatorPower, vals)
  {
    HoldersAreWorth(holders);
    ValidatorAccountsAddNothing(HolderAccounts(map[], holders), vals);
    DelegateesAreWorth(vals);
  }
}
