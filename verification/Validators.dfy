/**
 ctrlers/stake/ctrler.go and delegatee.go: choosing the validators among the delegatees
 and telling the consensus engine what changed.
 */
module Validators {
  import opened Prelude
  import opened Delegatees

  // ----- The two orders -----

  /** PowerOrderDelegatees.Less: by total power, number of stakes and address, all descending. */
  predicate PowerLess(a: Delegatee, b: Delegatee)
  {
    if a.totalPower != b.totalPower then a.totalPower > b.totalPower
    else if |a.stakes| != |b.stakes| then |a.stakes| > |b.stakes|
    else Less(b.addr, a.addr)
  }

  /** AddressOrderDelegatees.Less */
  predicate AddressLess(a: Delegatee, b: Delegatee)
  {
    Less(a.addr, b.addr)
  }

  predicate DistinctAddrs(ds: seq<Delegatee>)
  {
    forall i, j | 0 <= i < j < |ds| :: ds[i].addr != ds[j].addr
  }

  lemma PowerLessIsWeakOrder()
    ensures WeakOrder(PowerLess)
  {
    LessIsStrictTotal();
    forall x, y, z | PowerLess(x, z) ensures PowerLess(x, y) || PowerLess(y, z) {
      assert x.addr == y.addr || Less(x.addr, y.addr) || Less(y.addr, x.addr);
    }
  }

  lemma AddressLessIsWeakOrder()
    ensures WeakOrder(AddressLess)
  {
    LessIsStrictTotal();
    forall x, y, z | AddressLess(x, z) ensures AddressLess(x, y) || AddressLess(y, z) {
      assert x.addr == y.addr || Less(x.addr, y.addr) || Less(y.addr, x.addr);
    }
  }

  lemma DistinctAddrsAreConnected(ds: seq<Delegatee>)
    requires DistinctAddrs(ds)
    ensures Connected(PowerLess, ds) && Connected(AddressLess, ds) && Distinct(ds)
  {
    LessIsStrictTotal();
  }

  /** Any reordering of delegatees with distinct addresses has distinct addresses. */
  lemma PermutationKeepsAddrs(a: seq<Delegatee>, b: seq<Delegatee>)
    requires multiset(a) == multiset(b) && DistinctAddrs(a)
    ensures DistinctAddrs(b)
  {
    SameElements(a, b);
    assert Distinct(a);
    forall i, j | 0 <= i < j < |b| ensures b[i].addr != b[j].addr {
      assert b[i] in a && b[j] in a && b[i] != b[j];
    }
  }

  lemma SortByPower(ds: seq<Delegatee>)
    requires DistinctAddrs(ds)
    ensures SortOf(PowerLess, ds, Sort(PowerLess, ds)) && DistinctAddrs(Sort(PowerLess, ds))
    ensures forall r :: SortOf(PowerLess, ds, r) ==> r == Sort(PowerLess, ds)
  {
    PowerLessIsWeakOrder();
    DistinctAddrsAreConnected(ds);
    SortSorts(PowerLess, ds);
    PermutationKeepsAddrs(ds, Sort(PowerLess, ds));
    forall r | SortOf(PowerLess, ds, r) ensures r == Sort(PowerLess, ds) {
      PermutationKeepsAddrs(ds, r);
      DistinctAddrsAreConnected(r);
      SortUnique(PowerLess, r, Sort(PowerLess, ds));
    }
  }

  lemma SortByAddress(ds: seq<Delegatee>)
    requires DistinctAddrs(ds)
    ensures SortOf(AddressLess, ds, Sort(AddressLess, ds))
    ensures AddrAscending(Sort(AddressLess, ds))
    ensures forall r :: SortOf(AddressLess, ds, r) ==> r == Sort(AddressLess, ds)
  {
    AddressLessIsWeakOrder();
    DistinctAddrsAreConnected(ds);
    SortSorts(AddressLess, ds);
    var t := Sort(AddressLess, ds);
    PermutationKeepsAddrs(ds, t);
    forall i, j | 0 <= i < j < |t| ensures Less(t[i].addr, t[j].addr) {
      LessConnected(t[i].addr, t[j].addr);
      assert !AddressLess(t[j], t[i]);
    }
    forall r | SortOf(AddressLess, ds, r) ensures r == t {
      PermutationKeepsAddrs(ds, r);
      DistinctAddrsAreConnected(r);
      SortUnique(AddressLess, r, t);
    }
  }

  // ----- Selection -----

  /** The delegatees that BeginBlock collects: those with enough self power, in any order. */
  ghost predicate Eligible(ds: seq<Delegatee>, committed: map<Address, Delegatee>, minPower: int)
  {
    && DistinctAddrs(ds)
    && forall d :: d in ds <==> (d.addr in committed && committed[d.addr] == d && d.selfPower >= minPower)
  }

  function Select(ds: seq<Delegatee>, maxVals: nat): seq<Delegatee>
  {
    ds[..if |ds| < maxVals then |ds| else maxVals]
  }

  function TotalPower(d: Delegatee): int
  {
    d.totalPower
  }

  function SumTotal(ds: seq<Delegatee>): int
  {
    SumSeq(TotalPower, ds)
  }

  /** Whatever the iteration order and the unstable sort do, the same delegatees are chosen in the same order. */
  lemma SelectionIsUnique(a: seq<Delegatee>, b: seq<Delegatee>, sa: seq<Delegatee>, sb: seq<Delegatee>,
                          committed: map<Address, Delegatee>, minPower: int, maxVals: nat)
    requires Eligible(a, committed, minPower) && Eligible(b, committed, minPower)
    requires SortOf(PowerLess, a, sa) && SortOf(PowerLess, b, sb)
    ensures Select(sa, maxVals) == Select(sb, maxVals)
  {
    DistinctAddrsAreConnected(a);
    DistinctAddrsAreConnected(b);
    DistinctCounts(a);
    DistinctCounts(b);
    forall d ensures multiset(a)[d] == multiset(b)[d] {
      assert d in a <==> d in b;
      assert d in multiset(a) <==> d in a;
      assert d in multiset(b) <==> d in b;
    }
    SortByPower(a);
    assert SortOf(PowerLess, a, sb);
  }

  ghost predicate PowerDescending(ds: seq<Delegatee>)
  {
    forall i, j | 0 <= i < j < |ds| :: ds[i].totalPower >= ds[j].totalPower
  }

  lemma {:induction false} PrefixBeatsShift(ds: seq<Delegatee>, n: nat)
    requires PowerDescending(ds) && n < |ds|
    ensures SumTotal(ds[1..n + 1]) <= SumTotal(ds[..n])
  {
    if n > 0 {
      PrefixBeatsShift(ds, n - 1);
      assert ds[1..n + 1] == ds[1..n] + [ds[n]] && ds[..n] == ds[..n - 1] + [ds[n - 1]];
      SumSeqAppend(TotalPower, ds[1..n], ds[n]);
      SumSeqAppend(TotalPower, ds[..n - 1], ds[n - 1]);
    }
  }

  /** Without its head the selection is no stronger. */
  lemma SelectBeatsRest(ds: seq<Delegatee>, n: nat)
    requires PowerDescending(ds) && ds != [] && ds[0].totalPower >= 0
    ensures SumTotal(Select(ds[1..], n)) <= SumTotal(Select(ds, n))
  {
    if n < |ds| {
      PrefixBeatsShift(ds, n);
      assert Select(ds[1..], n) == ds[1..n + 1];
    } else {
      assert Select(ds[1..], n) == ds[1..] && Select(ds, n) == ds;
    }
  }

  lemma SelectCons(ds: seq<Delegatee>, n: nat)
    requires ds != [] && n > 0
    ensures SumTotal(Select(ds, n)) == ds[0].totalPower + SumTotal(Select(ds[1..], n - 1))
  {
    assert Select(ds, n) == [ds[0]] + Select(ds[1..], n - 1);
    assert Select(ds, n)[1..] == Select(ds[1..], n - 1);
  }

  /** A choice that holds d, without it. */
  lemma TakeOut(choice: seq<Delegatee>, d: Delegatee, ds: seq<Delegatee>) returns (others: seq<Delegatee>)
    requires Distinct(choice) && d in choice && ds != [] && ds[0] == d && forall x | x in choice :: x in ds
    ensures Distinct(others) && |others| == |choice| - 1 && forall x | x in others :: x in ds[1..]
    ensures SumTotal(choice) == d.totalPower + SumTotal(others)
  {
    var i :| 0 <= i < |choice| && choice[i] == d;
    others := choice[..i] + choice[i + 1..];
    SumSeqRemoveAt(TotalPower, choice, i);
    forall x | x in others ensures x in ds[1..] { assert x in choice && x != d; }
  }

  /** No other choice of at most n of the delegatees has more power than the first n. */
  lemma {:induction false} PrefixIsMaximal(ds: seq<Delegatee>, n: nat, choice: seq<Delegatee>)
    requires PowerDescending(ds) && (forall d | d in ds :: d.totalPower >= 0)
    requires Distinct(choice) && |choice| <= n && forall d | d in choice :: d in ds
    ensures SumTotal(choice) <= SumTotal(Select(ds, n))
    decreases |ds|
  {
    if choice == [] {
      SumSeqNonNegative(TotalPower, Select(ds, n));
    } else {
      assert choice[0] in ds;
      if ds[0] in choice {
        var others := TakeOut(choice, ds[0], ds);
        PrefixIsMaximal(ds[1..], n - 1, others);
        SelectCons(ds, n);
      } else {
        forall d | d in choice ensures d in ds[1..] { assert d in ds; }
        PrefixIsMaximal(ds[1..], n, choice);
        SelectBeatsRest(ds, n);
      }
    }
  }

  /**
   The selection has min(N, eligible) members, none weaker than one left out, and no choice of at most N
   eligible delegatees has more total power.
   */
  lemma SelectionIsStrongest(ds: seq<Delegatee>, sorted: seq<Delegatee>, maxVals: nat, choice: seq<Delegatee>)
    requires SortOf(PowerLess, ds, sorted) && Distinct(ds) && forall d | d in ds :: d.totalPower >= 0
    requires Distinct(choice) && |choice| <= maxVals && forall d | d in choice :: d in ds
    ensures |Select(sorted, maxVals)| == if |ds| < maxVals then |ds| else maxVals
    ensures forall d | d in Select(sorted, maxVals) :: d in ds
    ensures forall d, e | d in Select(sorted, maxVals) && e in ds && e !in Select(sorted, maxVals) :: d.totalPower >= e.totalPower
    ensures SumTotal(choice) <= SumTotal(Select(sorted, maxVals))
  {
    SameElements(ds, sorted);
    forall i, j | 0 <= i < j < |sorted| ensures sorted[i].totalPower >= sorted[j].totalPower {
      assert !PowerLess(sorted[j], sorted[i]);
    }
    PrefixIsMaximal(sorted, maxVals, choice);
    var chosen := Select(sorted, maxVals);
    forall d, e | d in chosen && e in ds && e !in chosen ensures d.totalPower >= e.totalPower {
      var i :| 0 <= i < |chosen| && chosen[i] == d;
      assert e in sorted;
      var j :| 0 <= j < |sorted| && sorted[j] == e;
      assert chosen == sorted[..|chosen|];
    }
  }

  /**
   Among delegatees of the same power the one with more stakes is chosen, and among those with as many stakes the one
   with the greater address.
   */
  lemma SelectionBreaksTies(ds: seq<Delegatee>, sorted: seq<Delegatee>, maxVals: nat, d: Delegatee, e: Delegatee)
    requires SortOf(PowerLess, ds, sorted) && DistinctAddrs(ds)
    requires d in Select(sorted, maxVals) && e in ds && e !in Select(sorted, maxVals) && d.totalPower == e.totalPower
    ensures |d.stakes| >= |e.stakes| && (|d.stakes| == |e.stakes| ==> Less(e.addr, d.addr))
  {
    var chosen := Select(sorted, maxVals);
    SameElements(ds, sorted);
    var i :| 0 <= i < |chosen| && chosen[i] == d;
    var j :| 0 <= j < |sorted| && sorted[j] == e;
    assert chosen == sorted[..|chosen|];
    assert !PowerLess(sorted[j], sorted[i]);
    assert d in ds && d.addr != e.addr;
    LessConnected(d.addr, e.addr);
  }

  // ----- Updates for the consensus engine -----

  datatype Update = Update(pubKey: Bytes, power: int)

  ghost predicate AddrAscending(ds: seq<Delegatee>)
  {
    forall i, j | 0 <= i < j < |ds| :: Less(ds[i].addr, ds[j].addr)
  }

  function Removal(d: Delegatee): Update
  {
    Update(d.pubKey, 0)
  }

  function Setting(d: Delegatee): Update
  {
    Update(d.pubKey, d.totalPower)
  }

  function Each(f: Delegatee -> Update, ds: seq<Delegatee>): seq<Update>
  {
    seq(|ds|, i requires 0 <= i < |ds| => f(ds[i]))
  }

  /** The merge of two lists ordered by address. */
  function Updates(existing: seq<Delegatee>, newers: seq<Delegatee>): seq<Update>
    decreases |existing| + |newers|
  {
    if newers == [] then Each(Removal, existing)
    else if existing == [] then Each(Setting, newers)
    else if Less(existing[0].addr, newers[0].addr) then [Removal(existing[0])] + Updates(existing[1..], newers)
    else if existing[0].addr == newers[0].addr then
      (if existing[0].totalPower != newers[0].totalPower then [Setting(newers[0])] else []) + Updates(existing[1..], newers[1..])
    else [Setting(newers[0])] + Updates(existing, newers[1..])
  }

  /** One turn of the merge loop. */
  lemma UpdatesTurn(existing: seq<Delegatee>, newers: seq<Delegatee>, i: nat, j: nat)
    requires i < |existing| && j < |newers|
    ensures Updates(existing[i..], newers[j..]) ==
            if Less(existing[i].addr, newers[j].addr) then [Removal(existing[i])] + Updates(existing[i + 1..], newers[j..])
            else if existing[i].addr == newers[j].addr then
              (if existing[i].totalPower != newers[j].totalPower then [Setting(newers[j])] else [])
              + Updates(existing[i + 1..], newers[j + 1..])
            else [Setting(newers[j])] + Updates(existing[i..], newers[j + 1..])
  {
    assert existing[i..][1..] == existing[i + 1..] && newers[j..][1..] == newers[j + 1..];
  }

  lemma Emitted(all: seq<Update>, ups: seq<Update>, step: seq<Update>, rest: seq<Update>)
    requires all == ups + (step + rest)
    ensures all == (ups + step) + rest
  {
  }

  method ValidatorUpdates(existing: seq<Delegatee>, newers: seq<Delegatee>) returns (ups: seq<Update>)
    ensures ups == Updates(existing, newers)
  {
    var i, j;
    ups, i, j := MergeUpdates(existing, newers);
    ghost var merged := ups;
    ghost var k := i;
    while i < |existing|
      invariant k <= i <= |existing| && ups == merged + Each(Removal, existing[k..i])
    {
      assert existing[k..i + 1] == existing[k..i] + [existing[i]];
      ups := ups + [Removal(existing[i])];
      i := i + 1;
    }
    assert existing[k..] == existing[k..|existing|];
    merged, k := ups, j;
    while j < |newers|
      invariant k <= j <= |newers| && ups == merged + Each(Setting, newers[k..j])
    {
      assert newers[k..j + 1] == newers[k..j] + [newers[j]];
      ups := ups + [Setting(newers[j])];
      j := j + 1;
    }
    assert newers[k..] == newers[k..|newers|];
  }

  /** The first loop, which runs until one of the lists is used up. */
  method MergeUpdates(existing: seq<Delegatee>, newers: seq<Delegatee>) returns (ups: seq<Update>, i: nat, j: nat)
    ensures i <= |existing| && j <= |newers| && (i == |existing| || j == |newers|)
    ensures Updates(existing, newers) == ups + Each(Removal, existing[i..]) + Each(Setting, newers[j..])
  {
    ups, i, j := [], 0, 0;
    ghost var all := Updates(existing, newers);
    while i < |existing| && j < |newers|
      invariant 0 <= i <= |existing| && 0 <= j <= |newers|
      invariant all == ups + Updates(existing[i..], newers[j..])
      decreases |existing| - i + |newers| - j
    {
      UpdatesTurn(existing, newers, i, j);
      ghost var before := ups;
      if Less(existing[i].addr, newers[j].addr) {
        ups := ups + [Removal(existing[i])];
        i := i + 1;
      } else if existing[i].addr == newers[j].addr {
        if existing[i].totalPower != newers[j].totalPower {
          ups := ups + [Setting(newers[j])];
        }
        i, j := i + 1, j + 1;
      } else {
        ups := ups + [Setting(newers[j])];
        j := j + 1;
      }
      Emitted(all, before, ups[|before|..], Updates(existing[i..], newers[j..]));
      assert before + ups[|before|..] == ups;
    }
  }

  // ----- The consensus engine's side -----

  /** The consensus engine knows a validator by the address of its public key. */
  type AddrOf = Bytes -> Address

  type ValidatorSet = map<Address, int>

  /** ABCI: power 0 removes a validator, any other power sets it. */
  function Apply(addrOf: AddrOf, vals: ValidatorSet, u: Update): ValidatorSet
  {
    if u.power == 0 then vals - {addrOf(u.pubKey)} else vals[addrOf(u.pubKey) := u.power]
  }

  function ApplyAll(addrOf: AddrOf, vals: ValidatorSet, ups: seq<Update>): ValidatorSet
    decreases |ups|
  {
    if ups == [] then vals else ApplyAll(addrOf, Apply(addrOf, vals, ups[0]), ups[1..])
  }

  function PowerMap(ds: seq<Delegatee>): ValidatorSet
  {
    if ds == [] then map[] else PowerMap(ds[1..])[ds[0].addr := ds[0].totalPower]
  }

  ghost predicate KeysMatch(addrOf: AddrOf, ds: seq<Delegatee>)
  {
    forall d | d in ds :: addrOf(d.pubKey) == d.addr
  }

  lemma {:induction false} PowerMapAt(ds: seq<Delegatee>)
    requires DistinctAddrs(ds)
    ensures forall d | d in ds :: d.addr in PowerMap(ds) && PowerMap(ds)[d.addr] == d.totalPower
    ensures forall a | a in PowerMap(ds) :: exists d | d in ds :: d.addr == a
  {
    if ds != [] {
      PowerMapAt(ds[1..]);
      assert forall d | d in ds[1..] :: d in ds && d.addr != ds[0].addr;
    }
  }

  function Addrs(ds: seq<Delegatee>): set<Address>
  {
    set d | d in ds :: d.addr
  }

  lemma AddrsCons(d: Delegatee, rest: seq<Delegatee>)
    ensures Addrs([d] + rest) == {d.addr} + Addrs(rest)
  {
    assert forall x :: x in [d] + rest <==> x == d || x in rest;
  }

  /** What the first of an ascending list tells about the rest. */
  lemma Ascending(ds: seq<Delegatee>)
    requires AddrAscending(ds) && ds != []
    ensures AddrAscending(ds[1..]) && ds[0].addr !in Addrs(ds[1..])
    ensures Addrs(ds) == {ds[0].addr} + Addrs(ds[1..])
    ensures forall a | a in Addrs(ds[1..]) :: Less(ds[0].addr, a)
  {
    assert ds == [ds[0]] + ds[1..];
    AddrsCons(ds[0], ds[1..]);
    LessIrreflexive(ds[0].addr);
  }

  lemma BelowHead(a: Address, ds: seq<Delegatee>)
    requires AddrAscending(ds) && (ds != [] ==> Less(a, ds[0].addr))
    ensures a !in Addrs(ds) && forall b | b in Addrs(ds) :: Less(a, b)
  {
    if ds != [] {
      Ascending(ds);
      LessIsStrictTotal();
    } else {
      assert Addrs(ds) == {};
    }
  }

  lemma {:induction false} PowerMapKeys(ds: seq<Delegatee>)
    ensures PowerMap(ds).Keys == Addrs(ds)
  {
    if ds == [] {
      assert Addrs(ds) == {};
    } else {
      PowerMapKeys(ds[1..]);
      assert ds == [ds[0]] + ds[1..];
      AddrsCons(ds[0], ds[1..]);
    }
  }

  /** vals knows the existing validators with their powers. */
  ghost predicate Knows(vals: ValidatorSet, existing: seq<Delegatee>)
  {
    forall e | e in existing :: e.addr in vals && vals[e.addr] == e.totalPower
  }

  /** Applying the updates replaces the existing validators by the new ones and touches no other. */
  lemma {:induction false} UpdatesReplace(addrOf: AddrOf, vals: ValidatorSet, existing: seq<Delegatee>, newers: seq<Delegatee>)
    requires AddrAscending(existing) && AddrAscending(newers) && Knows(vals, existing)
    requires KeysMatch(addrOf, existing) && KeysMatch(addrOf, newers)
    requires forall n | n in newers :: n.totalPower != 0
    ensures ApplyAll(addrOf, vals, Updates(existing, newers)) == (vals - Addrs(existing)) + PowerMap(newers)
    decreases |existing| + |newers|
  {
    if existing != [] && (newers == [] || Less(existing[0].addr, newers[0].addr)) {
      var e, rest := existing[0], existing[1..];
      Ascending(existing);
      BelowHead(e.addr, newers);
      assert Updates(existing, newers) == [Removal(e)] + Updates(rest, newers);
      UpdatesReplace(addrOf, vals - {e.addr}, rest, newers);
      assert vals - {e.addr} - Addrs(rest) == vals - Addrs(existing);
    } else if existing != [] && existing[0].addr == newers[0].addr {
      MergeEqual(addrOf, vals, existing, newers);
      Ascending(existing);
      Ascending(newers);
      UpdatesReplace(addrOf, vals[newers[0].addr := newers[0].totalPower], existing[1..], newers[1..]);
      SetThenReplace(vals, existing, newers);
    } else if newers != [] {
      var n, rest := newers[0], newers[1..];
      if existing != [] { LessConnected(existing[0].addr, n.addr); }
      BelowHead(n.addr, existing);
      Ascending(newers);
      assert Updates(existing, newers) == [Setting(n)] + Updates(existing, rest);
      UpdatesReplace(addrOf, vals[n.addr := n.totalPower], existing, rest);
      AddThenReplace(vals, existing, newers);
    } else {
      assert Addrs(existing) == {};
      assert vals - {} + map[] == vals;
    }
  }

  lemma ReplaceBeforeOrAfter(vals: ValidatorSet, a: Address, power: int, gone: set<Address>, added: ValidatorSet)
    requires a !in gone && a !in added
    ensures (vals[a := power] - gone) + added == (vals - gone) + added[a := power]
    ensures (vals[a := power] - gone) + added == (vals - ({a} + gone)) + added[a := power]
  {
  }

  lemma PowerMapCons(ds: seq<Delegatee>)
    requires ds != [] && AddrAscending(ds)
    ensures PowerMap(ds) == PowerMap(ds[1..])[ds[0].addr := ds[0].totalPower] && ds[0].addr !in PowerMap(ds[1..])
  {
    Ascending(ds);
    PowerMapKeys(ds[1..]);
  }

  lemma SetThenReplace(vals: ValidatorSet, existing: seq<Delegatee>, newers: seq<Delegatee>)
    requires existing != [] && newers != [] && existing[0].addr == newers[0].addr
    requires AddrAscending(existing) && AddrAscending(newers)
    ensures (vals[newers[0].addr := newers[0].totalPower] - Addrs(existing[1..])) + PowerMap(newers[1..])
         == (vals - Addrs(existing)) + PowerMap(newers)
  {
    Ascending(existing);
    PowerMapCons(newers);
    ReplaceBeforeOrAfter(vals, newers[0].addr, newers[0].totalPower, Addrs(existing[1..]), PowerMap(newers[1..]));
  }

  lemma AddThenReplace(vals: ValidatorSet, existing: seq<Delegatee>, newers: seq<Delegatee>)
    requires newers != [] && newers[0].addr !in Addrs(existing) && AddrAscending(newers)
    ensures (vals[newers[0].addr := newers[0].totalPower] - Addrs(existing)) + PowerMap(newers[1..])
         == (vals - Addrs(existing)) + PowerMap(newers)
  {
    PowerMapCons(newers);
    ReplaceBeforeOrAfter(vals, newers[0].addr, newers[0].totalPower, Addrs(existing), PowerMap(newers[1..]));
  }

  lemma MergeEqual(addrOf: AddrOf, vals: ValidatorSet, existing: seq<Delegatee>, newers: seq<Delegatee>)
    requires existing != [] && newers != [] && existing[0].addr == newers[0].addr
    requires KeysMatch(addrOf, newers) && newers[0].totalPower != 0
    requires existing[0].addr in vals && vals[existing[0].addr] == existing[0].totalPower
    ensures ApplyAll(addrOf, vals, Updates(existing, newers))
         == ApplyAll(addrOf, vals[newers[0].addr := newers[0].totalPower], Updates(existing[1..], newers[1..]))
  {
    LessIrreflexive(existing[0].addr);
    assert newers[0] in newers;
    if existing[0].totalPower == newers[0].totalPower {
      assert vals[newers[0].addr := newers[0].totalPower] == vals;
    }
  }

  /** u is a removal of a validator that is not kept, or the setting of a power that is not the current one. */
  ghost predicate Due(u: Update, existing: seq<Delegatee>, newers: seq<Delegatee>)
  {
    || (exists e | e in existing :: u == Removal(e) && e.addr !in Addrs(newers))
    || (exists n | n in newers :: u == Setting(n) && forall e | e in existing && e.addr == n.addr :: e.totalPower != n.totalPower)
  }

  ghost predicate AllDue(addrOf: AddrOf, ups: seq<Update>, existing: seq<Delegatee>, newers: seq<Delegatee>)
  {
    && (forall u | u in ups :: Due(u, existing, newers))
    && (forall i, j | 0 <= i < j < |ups| :: Less(addrOf(ups[i].pubKey), addrOf(ups[j].pubKey)))
  }

  /** Where a due update points to. */
  lemma DueTarget(addrOf: AddrOf, u: Update, existing: seq<Delegatee>, newers: seq<Delegatee>)
    requires Due(u, existing, newers) && KeysMatch(addrOf, existing) && KeysMatch(addrOf, newers)
    ensures addrOf(u.pubKey) in Addrs(existing) + Addrs(newers)
  {
    if e :| e in existing && u == Removal(e) && e.addr !in Addrs(newers) {
      assert e.addr in Addrs(existing);
    } else {
      var n :| n in newers && u == Setting(n) && forall e | e in existing && e.addr == n.addr :: e.totalPower != n.totalPower;
      assert n.addr in Addrs(newers);
    }
  }

  /** Putting a due update in front of later ones. */
  lemma DueCons(addrOf: AddrOf, head: Update, rest: seq<Update>, existing: seq<Delegatee>, newers: seq<Delegatee>,
                existing': seq<Delegatee>, newers': seq<Delegatee>)
    requires Due(head, existing, newers)
    requires KeysMatch(addrOf, existing') && KeysMatch(addrOf, newers') && AllDue(addrOf, rest, existing', newers')
    requires forall u | u in rest :: Due(u, existing, newers)
    requires forall a | a in Addrs(existing') + Addrs(newers') :: Less(addrOf(head.pubKey), a)
    ensures AllDue(addrOf, [head] + rest, existing, newers)
  {
    forall i | 0 <= i < |rest| ensures Less(addrOf(head.pubKey), addrOf(rest[i].pubKey)) {
      DueTarget(addrOf, rest[i], existing', newers');
    }
  }

  /** A due update stays due when a validator that it does not concern is put back in front. */
  lemma DueLater(u: Update, existing: seq<Delegatee>, newers: seq<Delegatee>, existing': seq<Delegatee>, newers': seq<Delegatee>)
    requires Due(u, existing', newers')
    requires forall e | e in existing' :: e in existing
    requires forall n | n in newers' :: n in newers
    requires forall e | e in existing && e !in existing' :: e.addr !in Addrs(newers')
    requires Addrs(newers) - Addrs(newers') !! Addrs(existing')
    ensures Due(u, existing, newers)
  {
    if e :| e in existing' && u == Removal(e) && e.addr !in Addrs(newers') {
      assert e.addr in Addrs(existing') && e.addr !in Addrs(newers);
    } else {
      var n :| n in newers' && u == Setting(n) && forall e | e in existing' && e.addr == n.addr :: e.totalPower != n.totalPower;
      assert n.addr in Addrs(newers');
    }
  }

  /**
   An update list mentions no validator twice, leaves out what did not change, removes only members
   that are not kept, and sets only powers that are new.
   */
  lemma {:induction false} UpdatesAreDue(addrOf: AddrOf, existing: seq<Delegatee>, newers: seq<Delegatee>)
    requires AddrAscending(existing) && AddrAscending(newers)
    requires KeysMatch(addrOf, existing) && KeysMatch(addrOf, newers)
    ensures AllDue(addrOf, Updates(existing, newers), existing, newers)
    decreases |existing| + |newers|
  {
    if existing != [] && (newers == [] || Less(existing[0].addr, newers[0].addr)) {
      var e, rest := existing[0], existing[1..];
      Ascending(existing);
      BelowHead(e.addr, newers);
      assert Updates(existing, newers) == [Removal(e)] + Updates(rest, newers);
      UpdatesAreDue(addrOf, rest, newers);
      forall u | u in Updates(rest, newers) ensures Due(u, existing, newers) { DueLater(u, existing, newers, rest, newers); }
      assert e in existing && Due(Removal(e), existing, newers);
      DueCons(addrOf, Removal(e), Updates(rest, newers), existing, newers, rest, newers);
    } else if existing != [] && existing[0].addr == newers[0].addr {
      LessIrreflexive(existing[0].addr);
      var e, n := existing[0], newers[0];
      Ascending(existing);
      Ascending(newers);
      var ups := Updates(existing[1..], newers[1..]);
      UpdatesAreDue(addrOf, existing[1..], newers[1..]);
      forall u | u in ups ensures Due(u, existing, newers) { DueLater(u, existing, newers, existing[1..], newers[1..]); }
      if e.totalPower != n.totalPower {
        assert forall x | x in existing :: x == e || x.addr in Addrs(existing[1..]);
        assert n in newers && Due(Setting(n), existing, newers);
        DueCons(addrOf, Setting(n), ups, existing, newers, existing[1..], newers[1..]);
      }
    } else if newers != [] {
      var n, rest := newers[0], newers[1..];
      if existing != [] { LessConnected(existing[0].addr, n.addr); }
      BelowHead(n.addr, existing);
      Ascending(newers);
      assert Updates(existing, newers) == [Setting(n)] + Updates(existing, rest);
      UpdatesAreDue(addrOf, existing, rest);
      forall u | u in Updates(existing, rest) ensures Due(u, existing, newers) { DueLater(u, existing, newers, existing, rest); }
      assert n in newers && forall x | x in existing :: x.addr in Addrs(existing);
      assert Due(Setting(n), existing, newers);
      DueCons(addrOf, Setting(n), Updates(existing, rest), existing, newers, existing, rest);
    }
  }

  // ----- Tracking over a run -----

  /** The controller's last validators, and the set the consensus engine has built from the updates. */
  datatype Tracker = Tracker(last: seq<Delegatee>, consensus: ValidatorSet)

  /** The delegatees a block sees, sorted by power, and the number of validators then in force. */
  datatype Round = Round(all: seq<Delegatee>, maxVals: nat)

  function RoundUpdates(t: Tracker, r: Round): seq<Update>
  {
    Updates(Sort(AddressLess, t.last), Sort(AddressLess, Select(r.all, r.maxVals)))
  }

  /** updateValidators, with the consensus engine applying what it returns. */
  function Advance(addrOf: AddrOf, t: Tracker, r: Round): Tracker
  {
    Tracker(Sort(PowerLess, Sort(AddressLess, Select(r.all, r.maxVals))), ApplyAll(addrOf, t.consensus, RoundUpdates(t, r)))
  }

  function AdvanceAll(addrOf: AddrOf, t: Tracker, rs: seq<Round>): Tracker
  {
    if rs == [] then t else Advance(addrOf, AdvanceAll(addrOf, t, rs[..|rs| - 1]), rs[|rs| - 1])
  }

  ghost predicate GoodList(addrOf: AddrOf, ds: seq<Delegatee>)
  {
    DistinctAddrs(ds) && KeysMatch(addrOf, ds) && forall d | d in ds :: d.totalPower > 0
  }

  /** The engine knows the last validators with their powers, and the rest. */
  ghost predicate TrackingWith(addrOf: AddrOf, t: Tracker, rest: ValidatorSet)
  {
    GoodList(addrOf, t.last) && rest.Keys !! Addrs(t.last) && t.consensus == rest + PowerMap(t.last)
  }

  /** Delegatees that are sound and have at least one unit of self power make a good list. */
  lemma EligibleIsGood(addrOf: AddrOf, ds: seq<Delegatee>, committed: map<Address, Delegatee>, minPower: int)
    requires Eligible(ds, committed, minPower) && minPower >= 1
    requires forall a | a in committed :: Sound(committed[a]) && addrOf(committed[a].pubKey) == committed[a].addr
    ensures GoodList(addrOf, Sort(PowerLess, ds))
  {
    SortByPower(ds);
    SameElements(ds, Sort(PowerLess, ds));
    forall d | d in ds ensures d.totalPower > 0 { SelfWithinTotal(d.stakes, d.addr); }
  }

  lemma {:induction false} PowerMapPermutes(a: seq<Delegatee>, b: seq<Delegatee>)
    requires multiset(a) == multiset(b) && DistinctAddrs(a)
    ensures PowerMap(a) == PowerMap(b)
  {
    SameElements(a, b);
    PermutationKeepsAddrs(a, b);
    PowerMapAt(a);
    PowerMapAt(b);
    PowerMapKeys(a);
    PowerMapKeys(b);
    forall x | x in PowerMap(a) ensures PowerMap(a)[x] == PowerMap(b)[x] {
      var d :| d in a && d.addr == x;
      assert d in b;
    }
  }

  lemma ByAddress(addrOf: AddrOf, ds: seq<Delegatee>)
    requires GoodList(addrOf, ds)
    ensures var s := Sort(AddressLess, ds);
            && AddrAscending(s) && GoodList(addrOf, s) && multiset(s) == multiset(ds)
            && PowerMap(s) == PowerMap(ds)
  {
    var s := Sort(AddressLess, ds);
    SortByAddress(ds);
    SameElements(ds, s);
    PermutationKeepsAddrs(ds, s);
    PowerMapPermutes(ds, s);
  }

  /** Sorting back by power gives the selection in the order in which it was made. */
  lemma BackByPower(chosen: seq<Delegatee>)
    requires DistinctAddrs(chosen) && Sorted(PowerLess, chosen)
    ensures Sort(PowerLess, Sort(AddressLess, chosen)) == chosen
  {
    SortByAddress(chosen);
    PermutationKeepsAddrs(chosen, Sort(AddressLess, chosen));
    SortByPower(Sort(AddressLess, chosen));
    assert SortOf(PowerLess, Sort(AddressLess, chosen), chosen);
  }

  /** Between lists ordered by address, the updates lead from the one power map to the other, and take over from the rest. */
  lemma UpdatesLead(addrOf: AddrOf, rest: ValidatorSet, olds: seq<Delegatee>, news: seq<Delegatee>)
    requires AddrAscending(olds) && AddrAscending(news) && GoodList(addrOf, olds) && GoodList(addrOf, news) && rest.Keys !! Addrs(olds)
    ensures ApplyAll(addrOf, rest + PowerMap(olds), Updates(olds, news)) == (rest - Addrs(news)) + PowerMap(news)
  {
    PowerMapAt(olds);
    PowerMapKeys(olds);
    PowerMapKeys(news);
    UpdatesReplace(addrOf, rest + PowerMap(olds), olds, news);
    assert (rest + PowerMap(olds)) - Addrs(olds) == rest;
    assert rest + PowerMap(news) == (rest - Addrs(news)) + PowerMap(news);
  }

  /** A change of the validators from one list to another, as the engine sees it. */
  lemma EngineFollows(addrOf: AddrOf, rest: ValidatorSet, last: seq<Delegatee>, chosen: seq<Delegatee>)
    requires GoodList(addrOf, last) && GoodList(addrOf, chosen) && rest.Keys !! Addrs(last)
    ensures var ups := Updates(Sort(AddressLess, last), Sort(AddressLess, chosen));
            && ApplyAll(addrOf, rest + PowerMap(last), ups) == (rest - Addrs(chosen)) + PowerMap(chosen)
            && AllDue(addrOf, ups, Sort(AddressLess, last), Sort(AddressLess, chosen))
  {
    ByAddress(addrOf, last);
    ByAddress(addrOf, chosen);
    SameAddrs(last, Sort(AddressLess, last));
    SameAddrs(chosen, Sort(AddressLess, chosen));
    UpdatesLead(addrOf, rest, Sort(AddressLess, last), Sort(AddressLess, chosen));
    UpdatesAreDue(addrOf, Sort(AddressLess, last), Sort(AddressLess, chosen));
  }

  lemma SameAddrs(a: seq<Delegatee>, b: seq<Delegatee>)
    requires multiset(a) == multiset(b)
    ensures Addrs(a) == Addrs(b)
  {
    SameElements(a, b);
  }

  /** One block: the updates are due, the engine follows, and the selection is what is remembered. */
  lemma AdvanceTracks(addrOf: AddrOf, t: Tracker, r: Round, rest: ValidatorSet)
    requires TrackingWith(addrOf, t, rest) && GoodList(addrOf, r.all) && Sorted(PowerLess, r.all)
    ensures TrackingWith(addrOf, Advance(addrOf, t, r), rest - Addrs(Select(r.all, r.maxVals)))
    ensures Advance(addrOf, t, r).last == Select(r.all, r.maxVals)
    ensures AllDue(addrOf, RoundUpdates(t, r), Sort(AddressLess, t.last), Sort(AddressLess, Select(r.all, r.maxVals)))
  {
    var chosen := Select(r.all, r.maxVals);
    BackByPower(chosen);
    EngineFollows(addrOf, rest, t.last, chosen);
  }

  /** The validators the engine began with, without all that have been selected since. */
  function Leftover(genesis: ValidatorSet, rs: seq<Round>): ValidatorSet
  {
    if rs == [] then genesis
    else Leftover(genesis, rs[..|rs| - 1]) - Addrs(Select(rs[|rs| - 1].all, rs[|rs| - 1].maxVals))
  }

  lemma {:induction false} LeftoverIs(genesis: ValidatorSet, rs: seq<Round>, a: Address)
    ensures a in Leftover(genesis, rs) <==> a in genesis && forall r | r in rs :: a !in Addrs(Select(r.all, r.maxVals))
  {
    if rs != [] {
      var front, last := rs[..|rs| - 1], rs[|rs| - 1];
      LeftoverIs(genesis, front, a);
      assert rs == front + [last];
      assert forall r :: r in rs <==> r in front || r == last;
    }
  }

  /**
   Over every run of blocks: the consensus engine, which began with the genesis validators and applies each update list,
   has exactly the controller's last validators with their powers, and those of genesis that were never selected.
   */
  lemma {:induction false} ConsensusFollows(addrOf: AddrOf, genesis: ValidatorSet, rs: seq<Round>)
    requires forall r | r in rs :: GoodList(addrOf, r.all) && Sorted(PowerLess, r.all)
    ensures TrackingWith(addrOf, AdvanceAll(addrOf, Tracker([], genesis), rs), Leftover(genesis, rs))
  {
    if rs == [] {
      assert genesis + map[] == genesis;
    } else {
      var front := rs[..|rs| - 1];
      assert forall r | r in front :: r in rs;
      ConsensusFollows(addrOf, genesis, front);
      AdvanceTracks(addrOf, AdvanceAll(addrOf, Tracker([], genesis), front), rs[|rs| - 1], Leftover(genesis, front));
    }
  }

  /** Hence the engine has the controller's validators and no other exactly when all of genesis have been selected some time. */
  lemma EngineAgreesExactly(addrOf: AddrOf, genesis: ValidatorSet, rs: seq<Round>)
    requires forall r | r in rs :: GoodList(addrOf, r.all) && Sorted(PowerLess, r.all)
    ensures var t := AdvanceAll(addrOf, Tracker([], genesis), rs);
            t.consensus == PowerMap(t.last) <==>
            forall a | a in genesis :: exists r :: r in rs && a in Addrs(Select(r.all, r.maxVals))
  {
    var t, left := AdvanceAll(addrOf, Tracker([], genesis), rs), Leftover(genesis, rs);
    ConsensusFollows(addrOf, genesis, rs);
    PowerMapKeys(t.last);
    forall a ensures a in left <==> a in genesis && forall r | r in rs :: a !in Addrs(Select(r.all, r.maxVals)) { LeftoverIs(genesis, rs, a); }
    assert t.consensus == PowerMap(t.last) <==> left == map[] by {
      if left == map[] {
        assert map[] + PowerMap(t.last) == PowerMap(t.last);
      } else {
        var a :| a in left;
        assert a in t.consensus && a !in PowerMap(t.last);
      }
    }
  }

  /** What the engine would lose: a selected validator without power is taken as removed. */
  lemma ZeroPowerIsLost(addrOf: AddrOf, d: Delegatee)
    requires addrOf(d.pubKey) == d.addr
    ensures ApplyAll(addrOf, map[], Updates([], [d])) == PowerMap([d]) <==> d.totalPower != 0
  {
    assert Updates([], [d]) == [Setting(d)];
    assert ApplyAll(addrOf, map[], [Setting(d)]) == Apply(addrOf, map[], Setting(d));
    assert PowerMap([d]) == map[d.addr := d.totalPower];
  }
}
