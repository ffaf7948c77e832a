/**
 ctrlers/stake/limiter.go: the limits on how much stake one delegatee may hold and on how
 much validator power may be exchanged within one block. A check changes the limiter.
 */
module Limiters {
  import opened Prelude
  import opened Delegatees

  datatype PowerObj = PowerObj(addr: Address, power: int)

  /** orderedPowerObj.Less: by power and address, both descending. */
  predicate ObjLess(a: PowerObj, b: PowerObj)
  {
    if a.power != b.power then a.power > b.power else Less(b.addr, a.addr)
  }

  datatype Limiter = Limiter(
    individualRatio: int, updatableRatio: int, maxVals: int,
    objs: seq<PowerObj>, base: int, updated: int)

  function ObjOf(d: Delegatee): PowerObj
  {
    PowerObj(d.addr, d.totalPower)
  }

  function ObjsOf(ds: seq<Delegatee>): seq<PowerObj>
  {
    seq(|ds|, i requires 0 <= i < |ds| => ObjOf(ds[i]))
  }

  function ObjPower(o: PowerObj): int
  {
    o.power
  }

  function Take<T>(s: seq<T>, n: int): seq<T>
  {
    if n <= 0 then [] else if n < |s| then s[..n] else s
  }

  /** The limiter at the start of a block; its base is the power of the validators. */
  function NewLimiter(ds: seq<Delegatee>, maxVals: int, individual: int, updatable: int): Limiter
  {
    Limiter(individual, updatable, maxVals, ObjsOf(ds), SumSeq(ObjPower, Take(ObjsOf(ds), maxVals)), 0)
  }

  function Find(objs: seq<PowerObj>, addr: Address): (i: int)
    ensures -1 <= i < |objs|
    ensures i >= 0 ==> objs[i].addr == addr
  {
    if objs == [] then -1
    else if objs[0].addr == addr then 0
    else
      var i := Find(objs[1..], addr);
      if i < 0 then -1 else i + 1
  }

  /** A request for a change of a delegatee's power, with the total power the caller sees. */
  datatype Request = Request(addr: Address, total: int, diff: int)

  predicate IndividualOk(l: Limiter, q: Request)
    requires q.diff > 0 ==> l.base + q.diff > 0
  {
    q.diff <= 0 || Quo((q.total + q.diff) * 100, l.base + q.diff) <= l.individualRatio
  }

  /** The tracked delegatee is among the first maxVals. */
  predicate InTop(l: Limiter, addr: Address)
  {
    0 <= Find(l.objs, addr) < l.maxVals
  }

  /** The power that counts as exchanged by a request. */
  function Exchanged(l: Limiter, q: Request): int
    requires l.maxVals >= 1
  {
    var power := q.total;
    if InTop(l, q.addr) && q.diff < 0 then
      if |l.objs| > l.maxVals && power + q.diff < l.objs[l.maxVals].power then power else -q.diff
    else if !InTop(l, q.addr) && q.diff > 0 then
      if |l.objs| >= l.maxVals && power + q.diff > l.objs[l.maxVals - 1].power then l.objs[l.maxVals - 1].power else 0
    else 0
  }

  /** The tracked power is what the caller sees; an untracked delegatee is taken as seen. */
  predicate PowerAgrees(l: Limiter, q: Request)
  {
    var i := Find(l.objs, q.addr);
    i < 0 || l.objs[i].power == q.total
  }

  predicate WithinUpdatable(l: Limiter, q: Request)
    requires l.base > 0 && l.maxVals >= 1
  {
    Quo((l.updated + Exchanged(l, q)) * 100, l.base) <= l.updatableRatio
  }

  /** The power is written before its sign is looked at. */
  function WithPower(l: Limiter, q: Request): seq<PowerObj>
  {
    var i := Find(l.objs, q.addr);
    if i < 0 then l.objs else l.objs[i := PowerObj(q.addr, q.total + q.diff)]
  }

  function Check(l: Limiter, q: Request): (Limiter, bool)
    requires l.objs != [] ==> l.base > 0 && l.maxVals >= 1
  {
    if l.objs == [] then (l, true)
    else if !IndividualOk(l, q) then (l, false)
    else if !PowerAgrees(l, q) then (l, false)
    else if !WithinUpdatable(l, q) then (l, false)
    else if q.total + q.diff < 0 then (l.(objs := WithPower(l, q)), false)
    else (l.(objs := Sort(ObjLess, WithPower(l, q)), updated := l.updated + Exchanged(l, q)), true)
  }

  // ----- The object -----

  class StakeLimiter {
    var individualLimitRatio: int
    var updatableLimitRatio: int
    var maxValidatorCnt: int
    var powerObjs: seq<PowerObj>
    var baseTotalPower: int
    var updatedPower: int

    function View(): Limiter
      reads this
    {
      Limiter(individualLimitRatio, updatableLimitRatio, maxValidatorCnt, powerObjs, baseTotalPower, updatedPower)
    }

    constructor (ds: seq<Delegatee>, maxVals: int, individual: int, updatable: int)
      ensures View() == NewLimiter(ds, maxVals, individual, updatable)
    {
      powerObjs := [];
      new;
      Reset(ds, maxVals, individual, updatable);
    }

    method Reset(ds: seq<Delegatee>, maxVals: int, individual: int, updatable: int)
      modifies this
      ensures View() == NewLimiter(ds, maxVals, individual, updatable)
    {
      var base, objs := 0, [];
      for i := 0 to |ds|
        invariant objs == ObjsOf(ds[..i])
        invariant base == SumSeq(ObjPower, Take(objs, maxVals))
      {
        assert ds[..i + 1] == ds[..i] + [ds[i]];
        var next := objs + [ObjOf(ds[i])];
        if i < maxVals {
          SumSeqAppend(ObjPower, objs, ObjOf(ds[i]));
          assert Take(next, maxVals) == next && Take(objs, maxVals) == objs;
          base := base + ds[i].totalPower;
        } else {
          assert Take(next, maxVals) == Take(objs, maxVals);
        }
        objs := next;
      }
      assert ds[..|ds|] == ds;
      powerObjs, baseTotalPower := objs, base;
      individualLimitRatio, updatableLimitRatio, maxValidatorCnt := individual, updatable, maxVals;
      updatedPower := 0;
    }

    method FindPowerObj(addr: Address) returns (i: int)
      ensures i == Find(powerObjs, addr)
    {
      i := 0;
      while i < |powerObjs|
        invariant 0 <= i <= |powerObjs|
        invariant Find(powerObjs, addr) == var j := Find(powerObjs[i..], addr); if j < 0 then -1 else i + j
      {
        if powerObjs[i].addr == addr { return i; }
        assert powerObjs[i..][1..] == powerObjs[i + 1..];
        i := i + 1;
      }
      i := -1;
    }

    method CheckIndividualPowerLimit(q: Request) returns (ok: bool)
      requires baseTotalPower > 0
      ensures ok <==> IndividualOk(View(), q)
    {
      if q.diff <= 0 { return true; }
      var ratio := Quo((q.total + q.diff) * 100, baseTotalPower + q.diff);
      ok := ratio <= individualLimitRatio;
    }

    method CheckUpdatablePowerLimit(q: Request) returns (ok: bool)
      requires powerObjs != [] && baseTotalPower > 0 && maxValidatorCnt >= 1
      requires IndividualOk(View(), q)
      modifies this
      ensures (View(), ok) == Check(old(View()), q)
    {
      var ridx := FindPowerObj(q.addr);
      var power := if ridx >= 0 then powerObjs[ridx].power else q.total;
      if power != q.total { return false; }
      var updated := updatedPower;
      if 0 <= ridx < maxValidatorCnt && q.diff < 0 {
        if |powerObjs| > maxValidatorCnt && power + q.diff < powerObjs[maxValidatorCnt].power {
          updated := updated + power;
        } else {
          updated := updated - q.diff;
        }
      }
      if (ridx < 0 || ridx >= maxValidatorCnt) && q.diff > 0 {
        if |powerObjs| >= maxValidatorCnt && power + q.diff > powerObjs[maxValidatorCnt - 1].power {
          updated := updated + powerObjs[maxValidatorCnt - 1].power;
        }
      }
      if updatableLimitRatio < Quo(updated * 100, baseTotalPower) { return false; }
      if ridx >= 0 { powerObjs := powerObjs[ridx := PowerObj(q.addr, power + q.diff)]; }
      if power + q.diff < 0 { return false; }
      updatedPower := updated;
      powerObjs := Sort(ObjLess, powerObjs);
      return true;
    }

    method CheckLimit(q: Request) returns (ok: bool)
      requires powerObjs != [] ==> baseTotalPower > 0 && maxValidatorCnt >= 1
      modifies this
      ensures (View(), ok) == Check(old(View()), q)
    {
      if powerObjs == [] { return true; }
      ok := CheckIndividualPowerLimit(q);
      if ok { ok := CheckUpdatablePowerLimit(q); }
    }
  }

  // ----- What a check keeps -----

  ghost predicate PowerDescending(objs: seq<PowerObj>)
  {
    forall i, j | 0 <= i < j < |objs| :: objs[i].power >= objs[j].power
  }

  predicate DistinctObjs(objs: seq<PowerObj>)
  {
    forall i, j | 0 <= i < j < |objs| :: objs[i].addr != objs[j].addr
  }

  function AddrSet(objs: seq<PowerObj>): set<Address>
  {
    set o | o in objs :: o.addr
  }

  ghost predicate LimiterInv(l: Limiter)
  {
    && (l.objs != [] ==> l.base > 0 && l.maxVals >= 1)
    && PowerDescending(l.objs) && DistinctObjs(l.objs)
    && (forall o | o in l.objs :: o.power >= 0)
    && l.updated >= 0
  }

  lemma ObjLessIsWeakOrder()
    ensures WeakOrder(ObjLess)
  {
    LessIsStrictTotal();
    forall x, y, z | ObjLess(x, z) ensures ObjLess(x, y) || ObjLess(y, z) {
      assert x.addr == y.addr || Less(x.addr, y.addr) || Less(y.addr, x.addr);
    }
  }

  lemma SortObjs(objs: seq<PowerObj>)
    requires DistinctObjs(objs)
    ensures var r := Sort(ObjLess, objs);
            multiset(r) == multiset(objs) && PowerDescending(r) && DistinctObjs(r) && AddrSet(r) == AddrSet(objs)
    ensures forall r :: SortOf(ObjLess, objs, r) ==> r == Sort(ObjLess, objs)
  {
    ObjLessIsWeakOrder();
    SortSorts(ObjLess, objs);
    var r := Sort(ObjLess, objs);
    SameElements(objs, r);
    assert Distinct(objs);
    forall i, j | 0 <= i < j < |r| ensures r[i].addr != r[j].addr && r[i].power >= r[j].power {
      assert r[i] in objs && r[j] in objs && r[i] != r[j] && !ObjLess(r[j], r[i]);
    }
    forall t | SortOf(ObjLess, objs, t) ensures t == r {
      LessIsStrictTotal();
      SameElements(objs, t);
      assert Connected(ObjLess, t);
      SortUnique(ObjLess, t, r);
    }
  }

  lemma WithPowerKeeps(l: Limiter, q: Request)
    requires DistinctObjs(l.objs)
    ensures DistinctObjs(WithPower(l, q)) && AddrSet(WithPower(l, q)) == AddrSet(l.objs)
  {
    var i := Find(l.objs, q.addr);
    if i >= 0 {
      var r := WithPower(l, q);
      forall a | a in AddrSet(l.objs) ensures a in AddrSet(r) {
        var o :| o in l.objs && o.addr == a;
        var k :| 0 <= k < |l.objs| && l.objs[k] == o;
        assert r[k].addr == a && r[k] in r;
      }
      forall a | a in AddrSet(r) ensures a in AddrSet(l.objs) {
        var o :| o in r && o.addr == a;
        var k :| 0 <= k < |r| && r[k] == o;
        assert l.objs[k].addr == a && l.objs[k] in l.objs;
      }
    }
  }

  /** The power exchanged is at least what is unstaked from the top, and never negative. */
  lemma ExchangedCovers(l: Limiter, q: Request)
    requires LimiterInv(l) && l.objs != [] && q.total + q.diff >= 0
    ensures Exchanged(l, q) >= 0
    ensures InTop(l, q.addr) && q.diff < 0 ==> Exchanged(l, q) >= -q.diff
  {
    if |l.objs| >= l.maxVals { assert l.objs[l.maxVals - 1] in l.objs; }
  }

  /** The delegatees that are validators as far as the limiter knows, and the others. */
  function Top(l: Limiter): seq<PowerObj>
  {
    Take(l.objs, l.maxVals)
  }

  ghost predicate IsLeast(m: int, objs: seq<PowerObj>)
  {
    (exists o | o in objs :: o.power == m) && forall o | o in objs :: o.power >= m
  }

  lemma InTopIs(l: Limiter, addr: Address)
    requires LimiterInv(l) && l.maxVals >= 1
    ensures InTop(l, addr) <==> addr in AddrSet(Top(l))
  {
    if addr in AddrSet(Top(l)) {
      var o :| o in Top(l) && o.addr == addr;
      FindFinds(l.objs, o);
    }
    if InTop(l, addr) { assert Top(l)[Find(l.objs, addr)] in Top(l); }
  }

  /**
   What counts as exchanged. A validator that gives up power exchanges what it gives up, or all it had when one
   outside is stronger than what is left of it; one from outside that gains exchanges the power of the weakest
   validator when it gets stronger than that; nothing else exchanges any.
   */
  lemma ExchangedIs(l: Limiter, q: Request, weakest: int)
    requires LimiterInv(l) && l.objs != [] && IsLeast(weakest, Top(l))
    ensures q.addr in AddrSet(Top(l)) ==>
              Exchanged(l, q) == if q.diff >= 0 then 0
                                 else if exists o | o in l.objs && o !in Top(l) :: o.power > q.total + q.diff then q.total else -q.diff
    ensures q.addr !in AddrSet(Top(l)) ==>
              Exchanged(l, q) == if q.diff > 0 && |l.objs| >= l.maxVals && q.total + q.diff > weakest then weakest else 0
  {
    InTopIs(l, q.addr);
    if |l.objs| >= l.maxVals {
      assert l.objs[l.maxVals - 1] in Top(l);
      var o :| o in Top(l) && o.power == weakest;
    }
    OutsideTop(l, q.total + q.diff);
  }

  /** Somebody outside is stronger than a power exactly when the first one outside is. */
  lemma OutsideTop(l: Limiter, power: int)
    requires LimiterInv(l) && l.objs != []
    ensures (exists o | o in l.objs && o !in Top(l) :: o.power > power) <==> |l.objs| > l.maxVals && l.objs[l.maxVals].power > power
  {
    if |l.objs| > l.maxVals {
      var first := l.objs[l.maxVals];
      assert first in l.objs && first !in Top(l);
      assert forall i | 0 <= i < l.maxVals :: Top(l)[i] == l.objs[i];
      forall o | o in l.objs && o !in Top(l) ensures o.power <= first.power {
        var i :| 0 <= i < |l.objs| && l.objs[i] == o;
      }
    }
  }

  /**
   When a check is accepted: with what it adds the delegatee stays below the next percent of all power, the limiter and
   the caller agree on the delegatee's power, and what is exchanged in the block stays below the next percent of the base.
   */
  lemma AcceptsExactly(l: Limiter, q: Request)
    requires LimiterInv(l) && l.objs != [] && q.total + q.diff >= 0
    ensures Check(l, q).1 <==>
              && (q.diff > 0 ==> (q.total + q.diff) * 100 < (l.individualRatio + 1) * (l.base + q.diff))
              && (forall o | o in l.objs && o.addr == q.addr :: o.power == q.total)
              && (l.updated + Exchanged(l, q)) * 100 < (l.updatableRatio + 1) * l.base
  {
    AcceptedIs(l, q);
    ExchangedCovers(l, q);
    QuoAtLeast((l.updated + Exchanged(l, q)) * 100, l.base, l.updatableRatio + 1);
    if q.diff > 0 { QuoAtLeast((q.total + q.diff) * 100, l.base + q.diff, l.individualRatio + 1); }
    AgreesIs(l, q);
  }

  lemma AgreesIs(l: Limiter, q: Request)
    requires DistinctObjs(l.objs)
    ensures PowerAgrees(l, q) <==> forall o | o in l.objs && o.addr == q.addr :: o.power == q.total
  {
    forall o | o in l.objs && o.addr == q.addr ensures Find(l.objs, q.addr) >= 0 && l.objs[Find(l.objs, q.addr)] == o {
      FindFinds(l.objs, o);
    }
    if Find(l.objs, q.addr) >= 0 { assert l.objs[Find(l.objs, q.addr)] in l.objs; }
  }

  /** One check, for a caller that never asks to take away more than the delegatee has. */
  lemma CheckKeeps(l: Limiter, q: Request)
    requires LimiterInv(l) && q.total + q.diff >= 0
    ensures var (l', ok) := Check(l, q);
            && LimiterInv(l') && l'.base == l.base && AddrSet(l'.objs) == AddrSet(l.objs) && |l'.objs| == |l.objs|
            && (!ok ==> l' == l)
            && l'.updated >= l.updated
            && (ok && l.objs != [] ==>
                  && Quo(l'.updated * 100, l.base) <= l.updatableRatio
                  && l'.updated >= l.updated + (if InTop(l, q.addr) && q.diff < 0 then -q.diff else 0))
  {
    var (l', ok) := Check(l, q);
    if l.objs != [] && ok {
      ExchangedCovers(l, q);
      WithPowerKeeps(l, q);
      SortObjs(WithPower(l, q));
      SameElements(WithPower(l, q), l'.objs);
    }
  }

  /**
   A rejected check can still change the limiter: exactly when all limits are met and the request takes
   more than the tracked delegatee has. The written power is then negative.
   */
  lemma RejectionLeavesUnchangedExactly(l: Limiter, q: Request)
    requires LimiterInv(l)
    ensures var (l', ok) := Check(l, q);
            !ok ==>
              (l' == l <==>
                !(&& IndividualOk(l, q) && PowerAgrees(l, q) && WithinUpdatable(l, q)
                  && q.diff < -q.total && Find(l.objs, q.addr) >= 0))
  {
    var i := Find(l.objs, q.addr);
    if l.objs != [] && i >= 0 && PowerAgrees(l, q) && q.total + q.diff < 0 {
      assert l.objs[i] in l.objs;
      assert WithPower(l, q)[i].power == q.total + q.diff;
    }
  }

  /** A concrete one: a delegatee of power 2 in the top, asked to give up 3. */
  lemma RejectionCanChange()
    ensures var l := Limiter(100, 200, 1, [PowerObj([1], 2)], 2, 0);
            var (l', ok) := Check(l, Request([1], 2, -3));
            LimiterInv(l) && !ok && l'.objs == [PowerObj([1], -1)]
  {
    var l := Limiter(100, 200, 1, [PowerObj([1], 2)], 2, 0);
    assert Find(l.objs, [1]) == 0;
  }

  // ----- What is asked -----

  /** What the validation of an unstake asks for: the whole of one stake. */
  function UnstakeRequest(d: Delegatee, txHash: Hash): Request
    requires FindStake(d.stakes, txHash) >= 0
  {
    Request(d.addr, d.totalPower, -d.stakes[FindStake(d.stakes, txHash)].power)
  }

  /**
   An unstake of a sound delegatee never asks for more than it has, and a staking asks for more power, so no rejection
   that the program can run into changes the limiter.
   */
  lemma UnstakeAsksWithin(l: Limiter, d: Delegatee, txHash: Hash)
    requires Sound(d) && FindStake(d.stakes, txHash) >= 0 && LimiterInv(l)
    ensures var q := UnstakeRequest(d, txHash); q.total + q.diff >= 0 && (!Check(l, q).1 ==> Check(l, q).0 == l)
  {
    var s := d.stakes[FindStake(d.stakes, txHash)];
    assert s in d.stakes;
    SumSeqNonNegative(Power, d.stakes);
    CheckKeeps(l, UnstakeRequest(d, txHash));
  }

  // ----- Simulated checks -----

  /** The tracked power of the delegatee has been moved by an accepted check. */
  predicate MovedBy(l: Limiter, s: Request, q: Request)
  {
    q.addr == s.addr && s.diff != 0 && Find(l.objs, s.addr) >= 0
  }

  lemma AgreesAfter(l: Limiter, s: Request, q: Request)
    requires LimiterInv(l) && l.objs != [] && s.total + s.diff >= 0 && Check(l, s).1 && PowerAgrees(l, q)
    ensures LimiterInv(Check(l, s).0) && PowerAgrees(Check(l, s).0, q) <==> !MovedBy(l, s, q)
  {
    var l' := Check(l, s).0;
    CheckKeeps(l, s);
    if Find(l.objs, q.addr) >= 0 {
      CheckTracks(l, s, q.addr);
    } else {
      NotTracked(l, l'.objs, q.addr);
    }
  }

  lemma NotTracked(l: Limiter, objs: seq<PowerObj>, addr: Address)
    requires AddrSet(objs) == AddrSet(l.objs) && Find(l.objs, addr) < 0
    ensures Find(objs, addr) < 0
  {
    if Find(objs, addr) >= 0 {
      var o := objs[Find(objs, addr)];
      assert o in objs && addr in AddrSet(objs);
      var x :| x in l.objs && x.addr == addr;
      FindFinds(l.objs, x);
    }
  }

  lemma AcceptedIs(l: Limiter, q: Request)
    requires l.objs != [] && l.base > 0 && l.maxVals >= 1 && q.total + q.diff >= 0
    ensures Check(l, q).1 <==> IndividualOk(l, q) && PowerAgrees(l, q) && WithinUpdatable(l, q)
    ensures Check(l, q).1 ==> Check(l, q).0 == l.(objs := Check(l, q).0.objs, updated := l.updated + Exchanged(l, q))
  {
  }

  lemma RefusedAfter(l: Limiter, l': Limiter, s: Request, q: Request)
    requires l.objs != [] && l'.objs != [] && l.base > 0 && l.maxVals >= 1 && s.total + s.diff >= 0 && q.total + q.diff >= 0
    requires l' == l.(objs := l'.objs, updated := l.updated + Exchanged(l, s)) && IndividualOk(l, q)
    ensures !Check(l', q).1 <==>
            !PowerAgrees(l', q) || Quo((l.updated + Exchanged(l, s) + Exchanged(l', q)) * 100, l.base) > l.updatableRatio
  {
    AcceptedIs(l', q);
  }

  /**
   CheckTx and DeliverTx ask the same limiter. A request that would be accepted is refused after an accepted check of
   a simulated transaction exactly when that one has moved the same delegatee's tracked power, or when what both
   exchange is over the ratio.
   */
  lemma SimulatedCheckRefusesExactly(l: Limiter, s: Request, q: Request) returns (l': Limiter)
    requires LimiterInv(l) && l.objs != [] && s.total + s.diff >= 0 && q.total + q.diff >= 0 && Check(l, s).1 && Check(l, q).1
    ensures l' == Check(l, s).0 && LimiterInv(l') && l'.objs != []
    ensures !Check(l', q).1 <==>
            MovedBy(l, s, q) || Quo((l.updated + Exchanged(l, s) + Exchanged(l', q)) * 100, l.base) > l.updatableRatio
  {
    l' := Check(l, s).0;
    CheckKeeps(l, s);
    AcceptedIs(l, s);
    AcceptedIs(l, q);
    AgreesAfter(l, s, q);
    RefusedAfter(l, l', s, q);
  }

  // ----- Runs within a block -----

  function RunChecks(l: Limiter, qs: seq<Request>): Limiter
    requires LimiterInv(l) && forall q | q in qs :: q.total + q.diff >= 0
    ensures LimiterInv(RunChecks(l, qs))
  {
    if qs == [] then l
    else
      assert forall q | q in qs[..|qs| - 1] :: q in qs;
      var before := RunChecks(l, qs[..|qs| - 1]);
      CheckKeeps(before, qs[|qs| - 1]);
      Check(before, qs[|qs| - 1]).0
  }

  /** The power taken by accepted checks from delegatees that were in the top when asked. */
  function TakenFromTop(l: Limiter, qs: seq<Request>): int
    requires LimiterInv(l) && forall q | q in qs :: q.total + q.diff >= 0
  {
    if qs == [] then 0
    else
      assert forall q | q in qs[..|qs| - 1] :: q in qs;
      var before, q := RunChecks(l, qs[..|qs| - 1]), qs[|qs| - 1];
      TakenFromTop(l, qs[..|qs| - 1]) + if Check(before, q).1 && InTop(before, q.addr) && q.diff < 0 then -q.diff else 0
  }

  /**
   Over any sequence of checks after a reset: the exchanged power stays within the ratio of the base, it is
   never less than what was taken from delegatees in the top, and the tracked list stays one of the same
   delegatees in descending power.
   */
  lemma {:induction false} ChecksStayWithinLimit(l: Limiter, qs: seq<Request>)
    requires LimiterInv(l) && (forall q | q in qs :: q.total + q.diff >= 0)
    requires l.updated == 0 && l.objs != [] && l.updatableRatio >= 0
    ensures var r := RunChecks(l, qs);
            && r.base == l.base && r.updatableRatio == l.updatableRatio && r.objs != []
            && Quo(r.updated * 100, l.base) <= l.updatableRatio
            && TakenFromTop(l, qs) <= r.updated
            && AddrSet(r.objs) == AddrSet(l.objs) && |r.objs| == |l.objs| && PowerDescending(r.objs)
  {
    if qs != [] {
      var front, q := qs[..|qs| - 1], qs[|qs| - 1];
      assert forall x | x in front :: x in qs;
      ChecksStayWithinLimit(l, front);
      CheckKeeps(RunChecks(l, front), q);
    }
  }

  /** The power the limiter keeps for a delegatee. */
  function Tracked(objs: seq<PowerObj>, addr: Address): int
  {
    var i := Find(objs, addr);
    if i < 0 then 0 else objs[i].power
  }

  lemma TrackedIs(objs: seq<PowerObj>, o: PowerObj)
    requires DistinctObjs(objs) && o in objs
    ensures Tracked(objs, o.addr) == o.power && Find(objs, o.addr) >= 0
  {
    FindFinds(objs, o);
  }

  lemma {:induction false} FindFinds(objs: seq<PowerObj>, o: PowerObj)
    requires o in objs
    ensures Find(objs, o.addr) >= 0
  {
    if objs[0].addr != o.addr { FindFinds(objs[1..], o); }
  }

  /** One accepted check moves the tracked power of its delegatee by the change asked for, and no other. */
  lemma CheckTracks(l: Limiter, q: Request, addr: Address)
    requires LimiterInv(l) && q.total + q.diff >= 0 && Find(l.objs, addr) >= 0
    ensures Find(Check(l, q).0.objs, addr) >= 0
    ensures Tracked(Check(l, q).0.objs, addr) == Tracked(l.objs, addr) + if Check(l, q).1 && q.addr == addr then q.diff else 0
  {
    var r := Check(l, q).0.objs;
    CheckKeeps(l, q);
    if Check(l, q).1 {
      WithPowerKeeps(l, q);
      SortObjs(WithPower(l, q));
      SameElements(WithPower(l, q), r);
      var i := Find(l.objs, addr);
      TrackedIs(r, WithPower(l, q)[i]);
    }
  }

  function Accepted(l: Limiter, qs: seq<Request>, addr: Address): int
    requires LimiterInv(l) && forall q | q in qs :: q.total + q.diff >= 0
  {
    if qs == [] then 0
    else
      assert forall q | q in qs[..|qs| - 1] :: q in qs;
      var before, q := RunChecks(l, qs[..|qs| - 1]), qs[|qs| - 1];
      Accepted(l, qs[..|qs| - 1], addr) + if Check(before, q).1 && q.addr == addr then q.diff else 0
  }

  /** The tracked power of a delegatee is its power at the reset plus all the changes that were accepted. */
  lemma {:induction false} ChecksTrackPower(l: Limiter, qs: seq<Request>, addr: Address)
    requires LimiterInv(l) && (forall q | q in qs :: q.total + q.diff >= 0) && Find(l.objs, addr) >= 0
    ensures Find(RunChecks(l, qs).objs, addr) >= 0
    ensures Tracked(RunChecks(l, qs).objs, addr) == Tracked(l.objs, addr) + Accepted(l, qs, addr)
  {
    if qs != [] {
      var front, q := qs[..|qs| - 1], qs[|qs| - 1];
      assert forall x | x in front :: x in qs;
      ChecksTrackPower(l, front, addr);
      CheckTracks(RunChecks(l, front), q, addr);
    }
  }

  function DelegateePower(d: Delegatee): int
  {
    d.totalPower
  }

  lemma {:induction false} ObjPowers(ds: seq<Delegatee>)
    ensures SumSeq(ObjPower, ObjsOf(ds)) == SumSeq(DelegateePower, ds)
  {
    if ds != [] {
      ObjPowers(ds[1..]);
      assert ObjsOf(ds)[1..] == ObjsOf(ds[1..]);
    }
  }

  /** After a reset the base is the power of the validators, the first maxVals, and every delegatee is tracked with its power. */
  lemma ResetTracks(ds: seq<Delegatee>, maxVals: nat, individual: int, updatable: int)
    ensures var l := NewLimiter(ds, maxVals, individual, updatable);
            && l.base == SumSeq(DelegateePower, if maxVals < |ds| then ds[..maxVals] else ds)
            && |l.objs| == |ds| && (forall i | 0 <= i < |ds| :: l.objs[i] == PowerObj(ds[i].addr, ds[i].totalPower))
            && l.individualRatio == individual && l.updatableRatio == updatable && l.maxVals == maxVals && l.updated == 0
  {
    var top := if maxVals < |ds| then ds[..maxVals] else ds;
    ObjPowers(top);
    assert Take(ObjsOf(ds), maxVals) == ObjsOf(top);
  }

  /** A reset over delegatees in power order starts such a run. */
  lemma ResetStartsRun(ds: seq<Delegatee>, maxVals: int, individual: int, updatable: int)
    requires forall i, j | 0 <= i < j < |ds| :: ds[i].totalPower >= ds[j].totalPower && ds[i].addr != ds[j].addr
    requires (forall d | d in ds :: d.totalPower > 0) && maxVals >= 1
    ensures LimiterInv(NewLimiter(ds, maxVals, individual, updatable))
    ensures NewLimiter(ds, maxVals, individual, updatable).updated == 0
  {
    var objs := ObjsOf(ds);
    forall o | o in objs ensures o.power > 0 {
      var i :| 0 <= i < |objs| && objs[i] == o;
      assert ds[i] in ds;
    }
    if ds != [] {
      var top := Take(objs, maxVals);
      assert top[0] in top && forall o | o in top :: o in objs;
      SumSeqNonNegative(ObjPower, top);
    }
  }
}
