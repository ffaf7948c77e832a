/**
 ledger/: the two-layer ledger. A committed tree carries a simulation cache, used by
 CheckTx, and a finality cache, used by DeliverTx; each remembers the items got, the items
 updated and the keys removed. Items are values that know their key, and the tree holds
 decoded items.
 */
module Ledger {
  import opened Prelude
  import opened Overlays

  const LEDGER_KEY_SIZE := 32

  type Key = k: Bytes | |k| == LEDGER_KEY_SIZE witness seq(LEDGER_KEY_SIZE, _ => 0)

  function ToLedgerKey(s: Bytes): Key
  {
    if |s| >= LEDGER_KEY_SIZE then s[..LEDGER_KEY_SIZE]
    else s + seq(LEDGER_KEY_SIZE - |s|, _ => 0)
  }

  /** Addresses (20 bytes) and hashes (32 bytes) keep their identity as ledger keys. */
  lemma ToLedgerKeyInjective(a: Bytes, b: Bytes)
    requires |a| == |b| <= LEDGER_KEY_SIZE
    requires ToLedgerKey(a) == ToLedgerKey(b)
    ensures a == b
  {
    assert a == ToLedgerKey(a)[..|a|];
    assert b == ToLedgerKey(b)[..|b|];
  }

  /** Cutting at 32 bytes is where identity is lost. */
  lemma ToLedgerKeyIdentifiesExactly(a: Bytes, b: Bytes)
    requires |a| == |b|
    ensures ToLedgerKey(a) == ToLedgerKey(b) <==> (if |a| <= LEDGER_KEY_SIZE then a == b else a[..LEDGER_KEY_SIZE] == b[..LEDGER_KEY_SIZE])
  {
    if |a| <= LEDGER_KEY_SIZE && ToLedgerKey(a) == ToLedgerKey(b) {
      ToLedgerKeyInjective(a, b);
    }
  }

  datatype Item<V> = Item(key: Key, body: V)

  datatype Answer<V> = Found(item: Item<V>) | NotFound | KeyCompromised

  /** A change of the tree, in the order in which the tree sees it. */
  datatype TreeOp<V> = TreeRemove(key: Key) | TreeSet(key: Key, item: Item<V>)

  type Tree<V> = map<Key, Item<V>>

  function ApplyOp<V>(t: Tree<V>, op: TreeOp<V>): Tree<V>
  {
    match op
    case TreeRemove(k) => t - {k}
    case TreeSet(k, item) => t[k := item]
  }

  function ApplyOps<V>(t: Tree<V>, ops: seq<TreeOp<V>>): Tree<V>
    decreases |ops|
  {
    if ops == [] then t else ApplyOps(ApplyOp(t, ops[0]), ops[1..])
  }

  // ----- The caches as values -----

  datatype Mem<V> = Mem(got: Tree<V>, updated: Tree<V>, removed: seq<Key>)

  function EmptyMem<V>(): Mem<V>
  {
    Mem(map[], map[], [])
  }

  function Read<V>(tree: Tree<V>, k: Key): Answer<V>
  {
    if k !in tree then NotFound
    else if tree[k].key != k then KeyCompromised
    else Found(tree[k])
  }

  function MemSet<V>(m: Mem<V>, item: Item<V>): Mem<V>
  {
    m.(updated := m.updated[item.key := item], got := m.got[item.key := item])
  }

  function MemCancelSet<V>(m: Mem<V>, k: Key): Mem<V>
  {
    m.(updated := m.updated - {k}, got := m.got - {k})
  }

  function MemGet<V>(tree: Tree<V>, m: Mem<V>, k: Key): (Mem<V>, Answer<V>)
  {
    if k in m.removed then (m, NotFound)
    else if k in m.got then (m, Found(m.got[k]))
    else
      match Read(tree, k)
      case Found(item) => (m.(got := m.got[item.key := item]), Found(item))
      case other => (m, other)
  }

  function MemDel<V>(tree: Tree<V>, m: Mem<V>, k: Key): (Mem<V>, Answer<V>)
  {
    var (m1, a) := MemGet(tree, m, k);
    if !a.Found? then (m1, a)
    else (Mem(m1.got - {k}, m1.updated - {k}, m1.removed + [k]), a)
  }

  function Without(s: seq<Key>, k: Key): seq<Key>
  {
    if s == [] then [] else if s[0] == k then s[1..] else [s[0]] + Without(s[1..], k)
  }

  lemma {:induction false} WithoutFirst(s: seq<Key>, k: Key, i: nat)
    requires i < |s| && s[i] == k && k !in s[..i]
    ensures Without(s, k) == s[..i] + s[i + 1..]
  {
    if i > 0 {
      assert s[0] in s[..i];
      assert s[1..][..i - 1] == s[..i][1..];
      WithoutFirst(s[1..], k, i - 1);
      assert s[..i] == [s[0]] + s[1..][..i - 1];
    }
  }

  lemma {:induction false} WithoutAbsent(s: seq<Key>, k: Key)
    requires k !in s
    ensures Without(s, k) == s
  {
    if s != [] { WithoutAbsent(s[1..], k); }
  }

  function MemCancelDel<V>(m: Mem<V>, k: Key): Mem<V>
  {
    m.(removed := Without(m.removed, k))
  }

  function MemRefresh<V>(m: Mem<V>): Mem<V>
  {
    Mem(m.got + m.updated, map[], [])
  }

  // ----- Commit -----

  /** LedgerKeyList.Less: descending order. */
  predicate KeyLess(a: Key, b: Key)
  {
    Less(b, a)
  }

  lemma KeyLessIsTotal()
    ensures WeakOrder(KeyLess)
    ensures forall s: seq<Key> :: Connected(KeyLess, s)
  {
    LessIsStrictTotal();
    forall x: Key, y: Key, z: Key | KeyLess(x, z) ensures KeyLess(x, y) || KeyLess(y, z) {
      assert x == y || Less(x, y) || Less(y, x);
    }
  }

  lemma SortKeepsEnumeration(ks: seq<Key>, s: set<Key>)
    requires Enumerates(ks, s)
    ensures Enumerates(Sort(KeyLess, ks), s)
    ensures Sorted(KeyLess, Sort(KeyLess, ks))
  {
    KeyLessIsTotal();
    SortSorts(KeyLess, ks);
    SameElements(ks, Sort(KeyLess, ks));
  }

  ghost function SortedKeys(s: set<Key>): (ks: seq<Key>)
    ensures Enumerates(ks, s)
  {
    AnyOrderLists(s);
    SortKeepsEnumeration(AnyOrder(s), s);
    Sort(KeyLess, AnyOrder(s))
  }

  /** Whatever order Go's map iteration gives, sorting the keys gives the same list. */
  lemma IterationOrderIrrelevant(ks: seq<Key>, s: set<Key>)
    requires Enumerates(ks, s)
    ensures Sort(KeyLess, ks) == SortedKeys(s)
  {
    KeyLessIsTotal();
    SortKeepsEnumeration(ks, s);
    AnyOrderLists(s);
    SortKeepsEnumeration(AnyOrder(s), s);
    EnumerationsPermute(Sort(KeyLess, ks), SortedKeys(s), s);
    SortUnique(KeyLess, Sort(KeyLess, ks), SortedKeys(s));
  }

  function RemoveOps<V>(ks: seq<Key>): seq<TreeOp<V>>
  {
    seq(|ks|, i requires 0 <= i < |ks| => TreeRemove(ks[i]))
  }

  function SetOps<V>(ks: seq<Key>, m: Tree<V>): seq<TreeOp<V>>
    requires forall k | k in ks :: k in m
  {
    seq(|ks|, i requires 0 <= i < |ks| => TreeSet(m[ks[i]].key, m[ks[i]]))
  }

  /** The changes a commit makes to the tree: removals in call order, then updates by descending key. */
  ghost function CommitOps<V>(m: Mem<V>): seq<TreeOp<V>>
  {
    RemoveOps(m.removed) + SetOps(SortedKeys(m.updated.Keys), m.updated)
  }

  function ToSet(ks: seq<Key>): set<Key>
  {
    set k | k in ks
  }

  lemma {:induction false} ApplyOpsConcat<V>(t: Tree<V>, a: seq<TreeOp<V>>, b: seq<TreeOp<V>>)
    ensures ApplyOps(t, a + b) == ApplyOps(ApplyOps(t, a), b)
    decreases |a|
  {
    if a == [] {
      assert a + b == b;
    } else {
      assert (a + b)[1..] == a[1..] + b;
      ApplyOpsConcat(ApplyOp(t, a[0]), a[1..], b);
    }
  }

  lemma {:induction false} ApplyRemoveOps<V>(t: Tree<V>, ks: seq<Key>)
    ensures ApplyOps(t, RemoveOps(ks)) == t - ToSet(ks)
    decreases |ks|
  {
    if ks != [] {
      assert RemoveOps<V>(ks)[1..] == RemoveOps(ks[1..]);
      ApplyRemoveOps(t - {ks[0]}, ks[1..]);
      assert ToSet(ks) == {ks[0]} + ToSet(ks[1..]);
      assert t - {ks[0]} - ToSet(ks[1..]) == t - ToSet(ks);
    }
  }

  function Restrict<V>(m: Tree<V>, ks: seq<Key>): Tree<V>
    requires forall k | k in ks :: k in m
  {
    map k | k in ks :: m[k]
  }

  lemma RestrictFirst<V>(t: Tree<V>, ks: seq<Key>, m: Tree<V>)
    requires Distinct(ks) && ks != []
    requires forall k | k in ks :: k in m
    ensures t[ks[0] := m[ks[0]]] + Restrict(m, ks[1..]) == t + Restrict(m, ks)
  {
    assert ks == [ks[0]] + ks[1..];
    assert ks[0] !in ks[1..];
    assert Restrict(m, ks) == Restrict(m, ks[1..])[ks[0] := m[ks[0]]];
    SetBeforeOrAfter(t, ks[0], m[ks[0]], Restrict(m, ks[1..]));
  }

  lemma {:induction false} ApplySetOps<V>(t: Tree<V>, ks: seq<Key>, m: Tree<V>)
    requires Distinct(ks)
    requires forall k | k in ks :: k in m
    requires forall k | k in m :: m[k].key == k
    ensures ApplyOps(t, SetOps(ks, m)) == t + Restrict(m, ks)
    decreases |ks|
  {
    if ks == [] {
      assert t + Restrict(m, ks) == t;
    } else {
      var t1 := t[ks[0] := m[ks[0]]];
      ApplySetOps(t1, ks[1..], m);
      assert SetOps(ks, m)[1..] == SetOps(ks[1..], m);
      RestrictFirst(t, ks, m);
    }
  }

  // ----- The ledger as a state machine -----

  datatype State<V> = State(tree: Tree<V>, version: nat, cached: Mem<V>, finality: Mem<V>)

  datatype Op<V> =
    | Set(item: Item<V>) | CancelSet(key: Key) | Get(key: Key) | Del(key: Key) | CancelDel(key: Key) | ReadTree(key: Key)
    | SetFinality(item: Item<V>) | CancelSetFinality(key: Key) | GetFinality(key: Key)
    | DelFinality(key: Key) | CancelDelFinality(key: Key) | Commit

  datatype Output<V> = Done | Returned(answer: Answer<V>) | Committed(ops: seq<TreeOp<V>>, version: nat)

  function InitState<V>(): State<V>
  {
    State(map[], 0, EmptyMem(), EmptyMem())
  }

  ghost function CommitState<V>(s: State<V>): State<V>
  {
    State(ApplyOps(s.tree, CommitOps(s.finality)), s.version + 1, EmptyMem(), MemRefresh(s.finality))
  }

  ghost function Step<V>(s: State<V>, op: Op<V>): (State<V>, Output<V>)
  {
    match op
    case Set(item) => (s.(cached := MemSet(s.cached, item)), Done)
    case CancelSet(k) => (s.(cached := MemCancelSet(s.cached, k)), Done)
    case Get(k) => var (m, a) := MemGet(s.tree, s.cached, k); (s.(cached := m), Returned(a))
    case Del(k) => var (m, a) := MemDel(s.tree, s.cached, k); (s.(cached := m), Returned(a))
    case CancelDel(k) => (s.(cached := MemCancelDel(s.cached, k)), Done)
    case ReadTree(k) => (s, Returned(Read(s.tree, k)))
    case SetFinality(item) => (s.(finality := MemSet(s.finality, item)), Done)
    case CancelSetFinality(k) => (s.(finality := MemCancelSet(s.finality, k)), Done)
    case GetFinality(k) => var (m, a) := MemGet(s.tree, s.finality, k); (s.(finality := m), Returned(a))
    case DelFinality(k) =>
      var (m, a) := MemDel(s.tree, s.finality, k);
      (s.(cached := MemDel(s.tree, s.cached, k).0, finality := m), Returned(a))
    case CancelDelFinality(k) => (s.(finality := MemCancelDel(s.finality, k)), Done)
    case Commit => (CommitState(s), Committed(CommitOps(s.finality), s.version + 1))
  }

  ghost function Run<V>(s: State<V>, ops: seq<Op<V>>): (State<V>, seq<Output<V>>)
    decreases |ops|
  {
    if ops == [] then (s, [])
    else
      var (s1, out) := Step(s, ops[0]);
      var (s2, outs) := Run(s1, ops[1..]);
      (s2, [out] + outs)
  }

  // ----- Refinement -----

  ghost predicate Keyed<V>(t: Tree<V>)
  {
    forall k | k in t :: t[k].key == k
  }

  /** What every call keeps true of a cache over a tree. */
  ghost predicate MemInv<V>(tree: Tree<V>, m: Mem<V>)
  {
    && Keyed(m.got) && Keyed(m.updated)
    && Distinct(m.removed)
    && (forall k | k in m.updated :: k in m.got)
    && (forall k | k in m.got ::
          if k in m.updated then m.got[k] == m.updated[k]
          else k !in m.removed && k in tree && m.got[k] == tree[k])
  }

  ghost predicate Inv<V>(s: State<V>)
  {
    Keyed(s.tree) && MemInv(s.tree, s.cached) && MemInv(s.tree, s.finality)
  }

  /** What a commit of this cache would store: the tree without the removed keys, overridden by the updates. */
  function Pending<V>(tree: Tree<V>, m: Mem<V>): Tree<V>
  {
    (tree - ToSet(m.removed)) + m.updated
  }

  function Abs<V>(tree: Tree<V>, m: Mem<V>): Overlay<Key, Item<V>>
  {
    Overlay(tree, Pending(tree, m), ToSet(m.removed))
  }

  function AnswerOf<V>(o: Option<Item<V>>): Answer<V>
  {
    match o case None => NotFound case Some(item) => Found(item)
  }

  lemma MemSetRefines<V>(tree: Tree<V>, m: Mem<V>, item: Item<V>)
    requires MemInv(tree, m)
    ensures MemInv(tree, MemSet(m, item))
    ensures Abs(tree, MemSet(m, item)) == Abs(tree, m).Set(item.key, item)
  {
    assert Pending(tree, MemSet(m, item)) == Pending(tree, m)[item.key := item];
  }

  lemma MemCancelSetRefines<V>(tree: Tree<V>, m: Mem<V>, k: Key)
    requires MemInv(tree, m)
    ensures MemInv(tree, MemCancelSet(m, k))
    ensures Abs(tree, MemCancelSet(m, k)) == Abs(tree, m).CancelSet(k)
  {
    assert Pending(tree, MemCancelSet(m, k)) == Abs(tree, m).CancelSet(k).working;
  }

  lemma MemGetRefines<V>(tree: Tree<V>, m: Mem<V>, k: Key)
    requires Keyed(tree) && MemInv(tree, m)
    ensures MemInv(tree, MemGet(tree, m, k).0)
    ensures Abs(tree, MemGet(tree, m, k).0) == Abs(tree, m)
    ensures MemGet(tree, m, k).1 == AnswerOf(Abs(tree, m).Get(k))
  {
  }

  lemma PendingDel<V>(tree: Tree<V>, updated: Tree<V>, removed: set<Key>, k: Key)
    ensures (tree - (removed + {k})) + (updated - {k}) == (tree - removed) + updated - {k}
  {
  }

  lemma MemDelKeepsInv<V>(tree: Tree<V>, m: Mem<V>, k: Key)
    requires MemInv(tree, m) && k in m.got && k !in m.removed
    ensures MemInv(tree, Mem(m.got - {k}, m.updated - {k}, m.removed + [k]))
  {
  }

  lemma MemDelRefines<V>(tree: Tree<V>, m: Mem<V>, k: Key)
    requires Keyed(tree) && MemInv(tree, m)
    ensures MemInv(tree, MemDel(tree, m, k).0)
    ensures Abs(tree, MemDel(tree, m, k).0) == Abs(tree, m).Del(k)
    ensures MemDel(tree, m, k).1 == AnswerOf(Abs(tree, m).Get(k))
  {
    MemGetRefines(tree, m, k);
    if Abs(tree, m).Get(k).Some? {
      var m1 := MemGet(tree, m, k).0;
      MemDelKeepsInv(tree, m1, k);
      assert ToSet(m.removed + [k]) == ToSet(m.removed) + {k};
      PendingDel(tree, m.updated, ToSet(m.removed), k);
    }
  }

  lemma {:induction false} WithoutRemoves(s: seq<Key>, k: Key)
    requires Distinct(s)
    ensures Distinct(Without(s, k))
    ensures ToSet(Without(s, k)) == ToSet(s) - {k}
  {
    if s != [] {
      assert s == [s[0]] + s[1..];
      assert s[0] !in s[1..];
      WithoutRemoves(s[1..], k);
      assert forall x :: x in Without(s[1..], k) <==> x in ToSet(Without(s[1..], k));
      if s[0] == k {
        assert ToSet(s) == {k} + ToSet(s[1..]);
      } else {
        assert ToSet(s) == {s[0]} + ToSet(s[1..]);
        assert ToSet(Without(s, k)) == {s[0]} + ToSet(Without(s[1..], k));
      }
    }
  }

  lemma PendingCancelDel<V>(tree: Tree<V>, updated: Tree<V>, removed: set<Key>, k: Key)
    ensures (tree - (removed - {k})) + updated == Overlay(tree, (tree - removed) + updated, removed).CancelDel(k).working
  {
  }

  lemma MemCancelDelKeepsInv<V>(tree: Tree<V>, m: Mem<V>, removed: seq<Key>)
    requires MemInv(tree, m) && Distinct(removed) && forall x | x in removed :: x in m.removed
    ensures MemInv(tree, m.(removed := removed))
  {
  }

  lemma MemCancelDelRefines<V>(tree: Tree<V>, m: Mem<V>, k: Key)
    requires MemInv(tree, m)
    ensures MemInv(tree, MemCancelDel(m, k))
    ensures Abs(tree, MemCancelDel(m, k)) == Abs(tree, m).CancelDel(k)
  {
    WithoutRemoves(m.removed, k);
    forall x | x in Without(m.removed, k) ensures x in m.removed { assert x in ToSet(Without(m.removed, k)); }
    MemCancelDelKeepsInv(tree, m, Without(m.removed, k));
    PendingCancelDel(tree, m.updated, ToSet(m.removed), k);
    assert k !in m.removed ==> ToSet(m.removed) - {k} == ToSet(m.removed);
  }

  /** A commit stores (tree minus removed keys) overridden by the updates, whatever order the tree operations take. */
  lemma CommitStoresPending<V>(tree: Tree<V>, m: Mem<V>)
    requires MemInv(tree, m)
    ensures ApplyOps(tree, CommitOps(m)) == Pending(tree, m)
  {
    var ks := SortedKeys(m.updated.Keys);
    var removes, sets := RemoveOps<V>(m.removed), SetOps(ks, m.updated);
    var kept := tree - ToSet(m.removed);
    assert CommitOps(m) == removes + sets;
    assert Restrict(m.updated, ks) == m.updated;
    ApplyRemoveOps(tree, m.removed);
    ApplySetOps(kept, ks, m.updated);
    ApplyOpsConcat(tree, removes, sets);
    assert ApplyOps(kept, sets) == kept + m.updated;
  }

  lemma EmptyCacheIsFresh<V>(tree: Tree<V>, m: Mem<V>)
    requires m.updated == map[] && m.removed == []
    ensures Abs(tree, m) == Fresh(tree)
  {
    assert ToSet(m.removed) == {};
    assert Pending(tree, m) == tree;
  }

  lemma CommitRefines<V>(s: State<V>)
    requires Inv(s)
    ensures Inv(CommitState(s))
    ensures CommitState(s).tree == Pending(s.tree, s.finality)
    ensures Abs(CommitState(s).tree, CommitState(s).finality) == Abs(s.tree, s.finality).Commit()
    ensures Abs(CommitState(s).tree, CommitState(s).cached) == Abs(s.tree, s.finality).Commit()
  {
    CommitStoresPending(s.tree, s.finality);
    EmptyCacheIsFresh(CommitState(s).tree, EmptyMem());
    EmptyCacheIsFresh(CommitState(s).tree, MemRefresh(s.finality));
  }

  /** The specification: two overlays over one committed map. */
  datatype Spec<V> = Spec(version: nat, sim: Overlay<Key, Item<V>>, fin: Overlay<Key, Item<V>>)

  ghost function AbsState<V>(s: State<V>): Spec<V>
  {
    Spec(s.version, Abs(s.tree, s.cached), Abs(s.tree, s.finality))
  }

  function SpecStep<V>(p: Spec<V>, op: Op<V>): (Spec<V>, Option<Answer<V>>)
  {
    match op
    case Set(item) => (p.(sim := p.sim.Set(item.key, item)), None)
    case CancelSet(k) => (p.(sim := p.sim.CancelSet(k)), None)
    case Get(k) => (p, Some(AnswerOf(p.sim.Get(k))))
    case Del(k) => (p.(sim := p.sim.Del(k)), Some(AnswerOf(p.sim.Get(k))))
    case CancelDel(k) => (p.(sim := p.sim.CancelDel(k)), None)
    case ReadTree(k) => (p, Some(AnswerOf(Lookup(p.fin.committed, k))))
    case SetFinality(item) => (p.(fin := p.fin.Set(item.key, item)), None)
    case CancelSetFinality(k) => (p.(fin := p.fin.CancelSet(k)), None)
    case GetFinality(k) => (p, Some(AnswerOf(p.fin.Get(k))))
    case DelFinality(k) => (p.(sim := p.sim.Del(k), fin := p.fin.Del(k)), Some(AnswerOf(p.fin.Get(k))))
    case CancelDelFinality(k) => (p.(fin := p.fin.CancelDel(k)), None)
    case Commit => (Spec(p.version + 1, p.fin.Commit(), p.fin.Commit()), None)
  }

  function SpecRun<V>(p: Spec<V>, ops: seq<Op<V>>): (Spec<V>, seq<Option<Answer<V>>>)
    decreases |ops|
  {
    if ops == [] then (p, [])
    else
      var (p1, a) := SpecStep(p, ops[0]);
      var (p2, rest) := SpecRun(p1, ops[1..]);
      (p2, [a] + rest)
  }

  function AnswerIn<V>(out: Output<V>): Option<Answer<V>>
  {
    if out.Returned? then Some(out.answer) else None
  }

  function AnswersIn<V>(outs: seq<Output<V>>): seq<Option<Answer<V>>>
  {
    if outs == [] then [] else [AnswerIn(outs[0])] + AnswersIn(outs[1..])
  }

  lemma StepRefines<V>(s: State<V>, op: Op<V>)
    requires Inv(s)
    ensures Inv(Step(s, op).0)
    ensures AbsState(Step(s, op).0) == SpecStep(AbsState(s), op).0
    ensures AnswerIn(Step(s, op).1) == SpecStep(AbsState(s), op).1
  {
    match op
    case Set(item) => MemSetRefines(s.tree, s.cached, item);
    case CancelSet(k) => MemCancelSetRefines(s.tree, s.cached, k);
    case Get(k) => MemGetRefines(s.tree, s.cached, k);
    case Del(k) => MemDelRefines(s.tree, s.cached, k);
    case CancelDel(k) => MemCancelDelRefines(s.tree, s.cached, k);
    case ReadTree(k) =>
    case SetFinality(item) => MemSetRefines(s.tree, s.finality, item);
    case CancelSetFinality(k) => MemCancelSetRefines(s.tree, s.finality, k);
    case GetFinality(k) => MemGetRefines(s.tree, s.finality, k);
    case DelFinality(k) =>
      MemDelRefines(s.tree, s.cached, k);
      MemDelRefines(s.tree, s.finality, k);
    case CancelDelFinality(k) => MemCancelDelRefines(s.tree, s.finality, k);
    case Commit => CommitRefines(s);
  }

  /** For every history of calls on both layers, every answer is the one of the specification. */
  lemma {:induction false} RunRefines<V>(s: State<V>, ops: seq<Op<V>>)
    requires Inv(s)
    ensures Inv(Run(s, ops).0)
    ensures AbsState(Run(s, ops).0) == SpecRun(AbsState(s), ops).0
    ensures AnswersIn(Run(s, ops).1) == SpecRun(AbsState(s), ops).1
    decreases |ops|
  {
    if ops != [] {
      StepRefines(s, ops[0]);
      RunRefines(Step(s, ops[0]).0, ops[1..]);
      var outs := Run(s, ops).1;
      assert outs[1..] == Run(Step(s, ops[0]).0, ops[1..]).1;
    }
  }

  /** The refinement from the empty ledger, and what it gives for reads and for the next commit. */
  lemma HistoryRefines<V>(ops: seq<Op<V>>, k: Key)
    ensures var s := Run(InitState<V>(), ops).0;
            && AnswersIn(Run(InitState<V>(), ops).1) == SpecRun(Spec(0, Fresh(map[]), Fresh(map[])), ops).1
            && Distinct(s.finality.removed) && Distinct(s.cached.removed)
            && CommitState(s).tree == Pending(s.tree, s.finality)
            && MemGet(s.tree, s.finality, k).1 != KeyCompromised
            && (MemGet(s.tree, s.finality, k).1 == AnswerOf(Lookup(CommitState(s).tree, k))
                <==> !(k in s.finality.removed && k in s.finality.updated))
  {
    var s := Run(InitState<V>(), ops).0;
    RunRefines(InitState<V>(), ops);
    assert AbsState(InitState<V>()) == Spec(0, Fresh(map[]), Fresh(map[]));
    CommitRefines(s);
    MemGetRefines(s.tree, s.finality, k);
    GetIsPendingValue(Abs(s.tree, s.finality), k);
  }

  lemma SpecRunThree<V>(p: Spec<V>, a: Op<V>, b: Op<V>, c: Op<V>)
    ensures SpecRun(p, [a, b, c]).0 == SpecStep(SpecStep(SpecStep(p, a).0, b).0, c).0
  {
    var q := SpecStep(SpecStep(p, a).0, b).0;
    assert [a, b, c][1..] == [b, c] && [b, c][1..] == [c] && [c][1..] == [];
    assert SpecRun(q, [c]).0 == SpecStep(q, c).0;
    assert SpecRun(SpecStep(p, a).0, [b, c]).0 == SpecRun(q, [c]).0;
  }

  lemma SetAgainIsDead<V>(x: Item<V>, y: Item<V>)
    requires x.key == y.key
    ensures var fin := SpecRun(Spec(0, Fresh(map[]), Fresh(map[])), [SetFinality(x), DelFinality(x.key), SetFinality(y)]).0.fin;
            x.key in fin.dead && x.key in fin.working && fin.working[x.key] == y
  {
    SpecRunThree(Spec(0, Fresh(map[]), Fresh(map[])), SetFinality(x), DelFinality(x.key), SetFinality(y));
  }

  /** A history in which they differ: what is set again after its deletion reads as absent, and is committed all the same. */
  lemma SetAgainReadsAbsent<V>(x: Item<V>, y: Item<V>, ops: seq<Op<V>>) returns (s: State<V>)
    requires x.key == y.key && ops == [SetFinality(x), DelFinality(x.key), SetFinality(y)]
    ensures s == Run(InitState<V>(), ops).0
    ensures MemGet(s.tree, s.finality, x.key).1 == AnswerOf(None) && Lookup(CommitState(s).tree, x.key) == Some(y)
  {
    s := Run(InitState<V>(), ops).0;
    SetAgainIsDead(x, y);
    RunRefines(InitState<V>(), ops);
    assert AbsState(InitState<V>()) == Spec(0, Fresh(map[]), Fresh(map[]));
    CommitRefines(s);
    MemGetRefines(s.tree, s.finality, x.key);
  }

  lemma ReadsAgreeIn<V>(before: State<V>, k: Key)
    requires Inv(before)
    ensures var s := CommitState(before);
            var pending := AnswerOf(Lookup(Pending(before.tree, before.finality), k));
            && MemGet(s.tree, s.cached, k).1 == pending && MemGet(s.tree, s.finality, k).1 == pending && Read(s.tree, k) == pending
  {
    CommitRefines(before);
    var s := CommitState(before);
    MemGetRefines(s.tree, s.cached, k);
    MemGetRefines(s.tree, s.finality, k);
  }

  /** Right after a commit the three ways to read agree on every key, with what was pending before. */
  lemma ReadsAgreeAfterCommit<V>(ops: seq<Op<V>>, k: Key) returns (before: State<V>, s: State<V>, pending: Answer<V>)
    ensures before == Run(InitState<V>(), ops).0 && s == CommitState(before)
    ensures pending == AnswerOf(Lookup(Pending(before.tree, before.finality), k))
    ensures MemGet(s.tree, s.cached, k).1 == pending && MemGet(s.tree, s.finality, k).1 == pending && Read(s.tree, k) == pending
  {
    RunRefines(InitState<V>(), ops);
    before := Run(InitState<V>(), ops).0;
    s := CommitState(before);
    pending := AnswerOf(Lookup(Pending(before.tree, before.finality), k));
    ReadsAgreeIn(before, k);
  }

  // ----- Non-interference -----

  predicate IsFinalityOp<V>(op: Op<V>)
  {
    match op
    case Set(_) => false
    case CancelSet(_) => false
    case Get(_) => false
    case Del(_) => false
    case CancelDel(_) => false
    case ReadTree(_) => false
    case _ => true
  }

  function FinalityOps<V>(ops: seq<Op<V>>): seq<Op<V>>
  {
    if ops == [] then []
    else if IsFinalityOp(ops[0]) then [ops[0]] + FinalityOps(ops[1..])
    else FinalityOps(ops[1..])
  }

  /** The outputs of the finality calls of a run, tree operations of commits included. */
  function FinalityOutputs<V>(ops: seq<Op<V>>, outs: seq<Output<V>>): seq<Output<V>>
    requires |ops| == |outs|
  {
    if ops == [] then []
    else if IsFinalityOp(ops[0]) then [outs[0]] + FinalityOutputs(ops[1..], outs[1..])
    else FinalityOutputs(ops[1..], outs[1..])
  }

  lemma {:induction false} RunLength<V>(s: State<V>, ops: seq<Op<V>>)
    ensures |Run(s, ops).1| == |ops|
    decreases |ops|
  {
    if ops != [] { RunLength(Step(s, ops[0]).0, ops[1..]); }
  }

  ghost predicate SameFinality<V>(s: State<V>, t: State<V>)
  {
    s.tree == t.tree && s.version == t.version && s.finality == t.finality
  }

  lemma SimulationStep<V>(s: State<V>, t: State<V>, op: Op<V>)
    requires SameFinality(s, t)
    ensures IsFinalityOp(op) ==> SameFinality(Step(s, op).0, Step(t, op).0) && Step(s, op).1 == Step(t, op).1
    ensures !IsFinalityOp(op) ==> SameFinality(Step(s, op).0, t)
  {
  }

  lemma RunCons<V>(s: State<V>, op: Op<V>, ops: seq<Op<V>>)
    ensures Run(s, [op] + ops) == var (s1, out) := Step(s, op); var (s2, outs) := Run(s1, ops); (s2, [out] + outs)
  {
    assert ([op] + ops)[1..] == ops;
  }

  /** A run with simulation calls interleaved behaves, on the finality side, as the run without them. */
  lemma {:induction false} SimulationIsInvisible<V>(s: State<V>, t: State<V>, ops: seq<Op<V>>)
    requires SameFinality(s, t)
    ensures |Run(s, ops).1| == |ops|
    ensures SameFinality(Run(s, ops).0, Run(t, FinalityOps(ops)).0)
    ensures FinalityOutputs(ops, Run(s, ops).1) == Run(t, FinalityOps(ops)).1
    decreases |ops|
  {
    RunLength(s, ops);
    if ops != [] {
      var op, rest := ops[0], ops[1..];
      var s1 := Step(s, op).0;
      SimulationStep(s, t, op);
      assert ops == [op] + rest;
      RunCons(s, op, rest);
      assert Run(s, ops).1[1..] == Run(s1, rest).1;
      if IsFinalityOp(op) {
        RunCons(t, op, FinalityOps(rest));
        SimulationIsInvisible(s1, Step(t, op).0, rest);
      } else {
        SimulationIsInvisible(s1, t, rest);
      }
    }
  }

  /** Two runs with the same finality calls read the same and hand the tree the same operations in the same order. */
  lemma NonInterference<V>(s: State<V>, t: State<V>, a: seq<Op<V>>, b: seq<Op<V>>)
    requires SameFinality(s, t) && FinalityOps(a) == FinalityOps(b)
    ensures |Run(s, a).1| == |a| && |Run(t, b).1| == |b|
    ensures FinalityOutputs(a, Run(s, a).1) == FinalityOutputs(b, Run(t, b).1)
    ensures SameFinality(Run(s, a).0, Run(t, b).0)
  {
    SimulationIsInvisible(s, s, a);
    SimulationIsInvisible(t, s, b);
  }
}
