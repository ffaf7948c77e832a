/**
 ctrlers/vm/evm/statedb.go: the wrapper between the EVM's state database and the accounts.
 Accounts are copied into the database when they are first accessed and written back when a
 transaction finishes; a revert has to forget exactly the accesses made since the snapshot.
 */
module StateDBs {
  import opened Prelude
  import opened Delegatees
  import opened Accounts

  datatype Obj = Obj(nonce: nat, balance: nat)

  /** A snapshot of the database: what RevertToSnapshot(id) brings back. */
  datatype Revision = Revision(id: nat, objs: map<Address, Obj>)

  /** accessed maps an address to the snapshot after which it was copied in, plus one. */
  datatype Wrapper = Wrapper(
    book: Book, objs: map<Address, Obj>, nextId: nat, revisions: seq<Revision>, accessed: map<Address, int>, snapshot: int)

  const NEW_OBJ := Obj(0, 0)

  function ObjAt(objs: map<Address, Obj>, a: Address): Obj
  {
    if a in objs then objs[a] else NEW_OBJ
  }

  // ----- Operations -----

  function TakeSnapshot(w: Wrapper): Wrapper
  {
    w.(snapshot := w.nextId, nextId := w.nextId + 1, revisions := w.revisions + [Revision(w.nextId, w.objs)])
  }

  function Access(w: Wrapper, a: Address): Wrapper
  {
    if a in w.accessed then w
    else
      var book := FindOrNew(w.book, a);
      w.(book := book, objs := w.objs[a := Obj(book[a].nonce, book[a].balance)], accessed := w.accessed[a := w.snapshot + 1])
  }

  function Prepare(w: Wrapper, from: Address, to: Option<Address>, snap: int): Wrapper
  {
    var w' := Access(w.(snapshot := snap), from);
    if to.None? then w' else Access(w', to.value)
  }

  function UpTo(accessed: map<Address, int>, id: int): map<Address, int>
  {
    map a | a in accessed && accessed[a] <= id :: accessed[a]
  }

  predicate Valid(w: Wrapper, id: int)
  {
    exists i :: 0 <= i < |w.revisions| && w.revisions[i].id == id
  }

  function Find(revisions: seq<Revision>, id: int): (i: nat)
    requires exists i :: 0 <= i < |revisions| && revisions[i].id == id
    ensures i < |revisions| && revisions[i].id == id
  {
    if revisions[0].id == id then 0
    else
      assert exists i :: 0 <= i < |revisions[1..]| && revisions[1..][i].id == id by {
        var i :| 0 <= i < |revisions| && revisions[i].id == id;
        assert revisions[1..][i - 1].id == id;
      }
      1 + Find(revisions[1..], id)
  }

  function RevertTo(w: Wrapper, id: int): Wrapper
    requires Valid(w, id)
  {
    var i := Find(w.revisions, id);
    w.(accessed := UpTo(w.accessed, id), objs := w.revisions[i].objs, revisions := w.revisions[..i])
  }

  /** The account that the database gives back for an accessed address. */
  function Restored(a: Account, o: Obj): Account
  {
    a.(balance := o.balance, nonce := o.nonce)
  }

  function WriteBack(book: Book, objs: map<Address, Obj>, addrs: set<Address>): Book
  {
    map a | a in book.Keys + addrs ::
      var acct := if a in book then book[a] else NEW_ACCOUNT;
      if a in addrs then Restored(acct, ObjAt(objs, a)) else acct
  }

  function Finish(w: Wrapper): Wrapper
  {
    w.(book := WriteBack(w.book, w.objs, w.accessed.Keys), accessed := map[])
  }

  // ----- What the operations keep -----

  /** Snapshot ids grow, and no address is marked beyond the next one. */
  ghost predicate Inv(w: Wrapper)
  {
    && (forall i, j | 0 <= i < j < |w.revisions| :: w.revisions[i].id < w.revisions[j].id)
    && (forall i | 0 <= i < |w.revisions| :: w.revisions[i].id < w.nextId)
    && (forall a | a in w.accessed :: w.accessed[a] <= w.nextId)
    && (w.nextId > 0 ==> w.snapshot == w.nextId - 1)
  }

  /** Reverting a snapshot just taken restores the accesses exactly when none is marked beyond its id. */
  lemma RevertAtOnceRestoresExactly(w: Wrapper)
    requires forall i | 0 <= i < |w.revisions| :: w.revisions[i].id < w.nextId
    ensures Valid(TakeSnapshot(w), w.nextId)
    ensures RevertTo(TakeSnapshot(w), w.nextId).accessed == w.accessed <==> forall a | a in w.accessed :: w.accessed[a] <= w.nextId
  {
    var s := TakeSnapshot(w);
    assert s.revisions[|w.revisions|].id == w.nextId;
    if a :| a in w.accessed && w.accessed[a] > w.nextId {
      assert a !in RevertTo(s, w.nextId).accessed;
    } else {
      assert UpTo(w.accessed, w.nextId) == w.accessed;
    }
  }

  /** The reason for the order: an address accessed before the first snapshot is forgotten by its revert. */
  lemma AccessBeforeSnapshotIsForgotten(book: Book, a: Address)
    ensures var w := Access(Wrapper(book, map[], 0, [], map[], 0), a);
            Valid(TakeSnapshot(w), 0) && a in w.accessed && a !in RevertTo(TakeSnapshot(w), 0).accessed
  {
    var s := TakeSnapshot(Access(Wrapper(book, map[], 0, [], map[], 0), a));
    assert s.revisions[0].id == 0;
  }

  datatype Op =
    | DoAccess(a: Address)
    | DoPut(a: Address, o: Obj)
    | DoMove(from: Address, to: Address, amount: nat)
    | DoSnapshot
    | DoRevert(id: int)

  function AddTo(objs: map<Address, Obj>, a: Address, amount: int): map<Address, Obj>
    requires ObjAt(objs, a).balance + amount >= 0
  {
    objs[a := ObjAt(objs, a).(balance := ObjAt(objs, a).balance + amount)]
  }

  /** What the EVM may do between the start and the end of a transaction; reverting to an id that is not valid panics. */
  function Step(w: Wrapper, op: Op): Wrapper
  {
    match op
    case DoAccess(a) => Access(w, a)
    case DoPut(a, o) => w.(objs := w.objs[a := o])
    case DoMove(from, to, amount) =>
      if ObjAt(w.objs, from).balance < amount then w else w.(objs := AddTo(AddTo(w.objs, from, 0 - amount), to, amount))
    case DoSnapshot => TakeSnapshot(w)
    case DoRevert(id) => if Valid(w, id) then RevertTo(w, id) else w
  }

  function Run(w: Wrapper, ops: seq<Op>): Wrapper
  {
    if ops == [] then w else Step(Run(w, ops[..|ops| - 1]), ops[|ops| - 1])
  }

  /** What the wrapper was when its next snapshot was taken can still be recovered from w. */
  ghost predicate Recoverable(w: Wrapper, was: Wrapper)
  {
    && Inv(w) && w.nextId > was.nextId && UpTo(w.accessed, was.nextId) == was.accessed
    && |was.revisions| < |w.revisions|
    && w.revisions[..|was.revisions| + 1] == was.revisions + [Revision(was.nextId, was.objs)]
  }

  /** Only accounts without balance and nonce are added. */
  ghost predicate OnlyNewAccounts(book: Book, book': Book)
  {
    && (forall a | a in book :: a in book' && book'[a] == book[a])
    && (forall a | a in book' && a !in book :: book'[a] == NEW_ACCOUNT)
  }

  lemma FindIs(w: Wrapper, i: nat, id: int)
    requires Inv(w) && i < |w.revisions| && w.revisions[i].id == id
    ensures Valid(w, id) && Find(w.revisions, id) == i
  {
    var j := Find(w.revisions, id);
    assert !(i < j) && !(j < i);
  }

  lemma AccessKeepsRecoverable(w: Wrapper, a: Address, was: Wrapper)
    requires Recoverable(w, was)
    ensures Recoverable(Access(w, a), was) && OnlyNewAccounts(w.book, Access(w, a).book)
  {
    assert UpTo(Access(w, a).accessed, was.nextId) == was.accessed;
  }

  lemma RevertKeepsRecoverable(w: Wrapper, id: int, was: Wrapper)
    requires Recoverable(w, was) && id > was.nextId && Valid(w, id)
    ensures Recoverable(RevertTo(w, id), was)
  {
    var w', n := RevertTo(w, id), |was.revisions|;
    NestedIsLater(w, id, was);
    assert w'.revisions[..n + 1] == w.revisions[..n + 1];
    assert UpTo(w'.accessed, was.nextId) == was.accessed;
  }

  lemma StepKeepsRecoverable(w: Wrapper, op: Op, was: Wrapper)
    requires Recoverable(w, was) && (op.DoRevert? ==> op.id > was.nextId)
    ensures Recoverable(Step(w, op), was) && OnlyNewAccounts(w.book, Step(w, op).book)
  {
    match op
    case DoAccess(a) => AccessKeepsRecoverable(w, a, was);
    case DoSnapshot =>
      var n := |was.revisions|;
      assert Step(w, op).revisions[..n + 1] == w.revisions[..n + 1];
    case DoRevert(id) => if Valid(w, id) { RevertKeepsRecoverable(w, id, was); }
    case _ =>
  }

  lemma {:induction false} RunKeepsRecoverable(w: Wrapper, ops: seq<Op>, was: Wrapper)
    requires Recoverable(w, was) && forall op | op in ops && op.DoRevert? :: op.id > was.nextId
    ensures Recoverable(Run(w, ops), was) && OnlyNewAccounts(w.book, Run(w, ops).book)
  {
    if ops != [] {
      var front, op := ops[..|ops| - 1], ops[|ops| - 1];
      assert forall o | o in front :: o in ops;
      RunKeepsRecoverable(w, front, was);
      assert op in ops;
      StepKeepsRecoverable(Run(w, front), op, was);
    }
  }

  lemma RevertRecovers(w: Wrapper, was: Wrapper)
    requires Inv(was) && Recoverable(w, was)
    ensures Valid(w, was.nextId)
    ensures RevertTo(w, was.nextId) == w.(accessed := was.accessed, objs := was.objs, revisions := was.revisions)
    ensures Inv(RevertTo(w, was.nextId))
  {
    var n := |was.revisions|;
    assert w.revisions[n] == w.revisions[..n + 1][n];
    FindIs(w, n, was.nextId);
    assert w.revisions[..n] == w.revisions[..n + 1][..n];
  }

  /**
   Under any nesting of snapshots and reverts, as long as nothing has reverted past it, going back to a
   snapshot restores the accesses and the database to what they were when it was taken.
   */
  lemma RevertRestores(w: Wrapper, ops: seq<Op>)
    requires Inv(w) && forall op | op in ops && op.DoRevert? :: op.id > w.nextId
    ensures var r := Run(TakeSnapshot(w), ops);
            && Valid(r, w.nextId) && Inv(RevertTo(r, w.nextId)) && OnlyNewAccounts(w.book, r.book)
            && RevertTo(r, w.nextId) == r.(accessed := w.accessed, objs := w.objs, revisions := w.revisions)
  {
    SnapshotIsRecoverable(w);
    RunKeepsRecoverable(TakeSnapshot(w), ops, w);
    RevertRecovers(Run(TakeSnapshot(w), ops), w);
  }

  lemma SnapshotIsRecoverable(w: Wrapper)
    requires Inv(w)
    ensures Recoverable(TakeSnapshot(w), w)
  {
    assert UpTo(w.accessed, w.nextId) == w.accessed;
  }

  // ----- Transactions -----

  /** ExecuteTrx up to the end of the EVM run: the snapshot first, then Prepare with its id. */
  function Started(w: Wrapper, from: Address, to: Option<Address>): Wrapper
  {
    Prepare(TakeSnapshot(w), from, to, w.nextId)
  }

  /** The accesses of Prepare, as the first steps of the run. */
  function PrepareOps(from: Address, to: Option<Address>): seq<Op>
  {
    if to.None? then [DoAccess(from)] else [DoAccess(from), DoAccess(to.value)]
  }

  lemma PrepareIsRun(w: Wrapper, from: Address, to: Option<Address>)
    ensures Started(w, from, to) == Run(TakeSnapshot(w), PrepareOps(from, to))
  {
    var s := TakeSnapshot(w);
    assert Run(s, [DoAccess(from)]) == Access(s, from);
    if to.Some? {
      var ops := PrepareOps(from, to);
      assert ops[..1] == [DoAccess(from)];
      assert Run(s, ops) == Step(Run(s, ops[..1]), DoAccess(to.value));
    }
  }

  lemma {:induction false} RunConcat(w: Wrapper, a: seq<Op>, b: seq<Op>)
    ensures Run(w, a + b) == Run(Run(w, a), b)
    decreases |b|
  {
    if b == [] {
      assert a + b == a;
    } else {
      var front := b[..|b| - 1];
      assert (a + b)[..|a + b| - 1] == a + front;
      RunConcat(w, a, front);
    }
  }

  /** The reverts of a transaction stay inside it. */
  ghost predicate Nested(ops: seq<Op>, snap: int)
  {
    forall op | op in ops && op.DoRevert? :: op.id > snap
  }

  /** The state of the wrapper at the end of the EVM run: everything since the snapshot can be undone. */
  lemma TrxIsRecoverable(w: Wrapper, from: Address, to: Option<Address>, ops: seq<Op>)
    requires Inv(w) && Nested(ops, w.nextId)
    ensures var r := Run(Started(w, from, to), ops); Recoverable(r, w) && OnlyNewAccounts(w.book, r.book)
  {
    PrepareIsRun(w, from, to);
    var all := PrepareOps(from, to) + ops;
    RunConcat(TakeSnapshot(w), PrepareOps(from, to), ops);
    SnapshotIsRecoverable(w);
    RunKeepsRecoverable(TakeSnapshot(w), all, w);
  }

  /**
   A failed contract transaction goes back to its snapshot and finishes. It writes nothing back: every account
   there was keeps its balance and nonce, the only accounts added are empty, and the database is as it was.
   */
  lemma FailedTrxChangesNothing(w: Wrapper, from: Address, to: Option<Address>, ops: seq<Op>) returns (r: Wrapper, f: Wrapper)
    requires Inv(w) && w.accessed == map[] && Nested(ops, w.nextId)
    ensures r == Run(Started(w, from, to), ops) && Valid(r, w.nextId) && f == Finish(RevertTo(r, w.nextId))
    ensures OnlyNewAccounts(w.book, f.book) && TotalBalance(f.book) == TotalBalance(w.book)
    ensures f.objs == w.objs && f.revisions == w.revisions && f.accessed == map[] && Inv(f)
  {
    TrxIsRecoverable(w, from, to, ops);
    r := Run(Started(w, from, to), ops);
    RevertRecovers(r, w);
    f := Finish(RevertTo(r, w.nextId));
    NothingWrittenBack(RevertTo(r, w.nextId));
    NewAccountsAddNothing(w.book, r.book);
  }

  lemma NothingWrittenBack(w: Wrapper)
    requires w.accessed == map[]
    ensures Finish(w) == w
  {
    assert w.accessed.Keys == {};
    assert WriteBack(w.book, w.objs, {}) == w.book;
  }

  lemma {:induction false} NewAccountsAddNothing(book: Book, book': Book)
    requires OnlyNewAccounts(book, book')
    ensures TotalBalance(book') == TotalBalance(book)
    decreases |book'|
  {
    if book'.Keys <= book.Keys {
      assert book' == book;
    } else {
      var a :| a in book' && a !in book;
      SumMapExtract(Balance, book', a);
      NewAccountsAddNothing(book, book' - {a});
    }
  }

  // ----- Balances -----

  function ObjBalance(o: Obj): int
  {
    o.balance
  }

  function Copies(objs: map<Address, Obj>, addrs: set<Address>): map<Address, Obj>
  {
    map a | a in addrs :: ObjAt(objs, a)
  }

  function Part(book: Book, addrs: set<Address>): Book
  {
    map a | a in addrs && a in book :: book[a]
  }

  /** By how much the copies of some accounts exceed the accounts. */
  ghost function Drift(book: Book, objs: map<Address, Obj>, addrs: set<Address>): int
  {
    SumMap(ObjBalance, Copies(objs, addrs)) - SumMap(Balance, Part(book, addrs))
  }

  /** One more address drifts by its own difference. */
  lemma DriftMore(book: Book, objs: map<Address, Obj>, addrs: set<Address>, a: Address)
    requires a !in addrs
    ensures Drift(book, objs, addrs + {a}) == Drift(book, objs, addrs) + ObjAt(objs, a).balance - At(Balance, book, a)
  {
    SumMapExtract(ObjBalance, Copies(objs, addrs + {a}), a);
    assert Copies(objs, addrs + {a}) - {a} == Copies(objs, addrs);
    if a in book {
      SumMapExtract(Balance, Part(book, addrs + {a}), a);
      assert Part(book, addrs + {a}) - {a} == Part(book, addrs);
    } else {
      assert Part(book, addrs + {a}) == Part(book, addrs);
    }
  }

  /** Writing the copies back moves the total by exactly their drift. */
  lemma {:induction false} WriteBackMovesByDrift(book: Book, objs: map<Address, Obj>, addrs: set<Address>)
    ensures TotalBalance(WriteBack(book, objs, addrs)) == TotalBalance(book) + Drift(book, objs, addrs)
  {
    if addrs == {} {
      assert WriteBack(book, objs, addrs) == book;
      assert Copies(objs, addrs) == map[] && Part(book, addrs) == map[];
    } else {
      var a :| a in addrs;
      var rest := addrs - {a};
      assert addrs == rest + {a};
      WriteBackMovesByDrift(book, objs, rest);
      DriftMore(book, objs, rest, a);
      var was := WriteBack(book, objs, rest);
      var acct := Restored(if a in book then book[a] else NEW_ACCOUNT, ObjAt(objs, a));
      assert WriteBack(book, objs, addrs) == was[a := acct];
      assert At(Balance, was, a) == At(Balance, book, a);
      SumMapUpdate(Balance, was, a, acct);
    }
  }

  /** What setting one object does to the drift. */
  lemma DriftPut(book: Book, objs: map<Address, Obj>, a: Address, o: Obj, addrs: set<Address>)
    ensures Drift(book, objs[a := o], addrs)
         == Drift(book, objs, addrs) + if a in addrs then o.balance - ObjAt(objs, a).balance else 0
  {
    if a in addrs {
      assert Copies(objs[a := o], addrs) == Copies(objs, addrs)[a := o];
      SumMapUpdate(ObjBalance, Copies(objs, addrs), a, o);
    } else {
      assert Copies(objs[a := o], addrs) == Copies(objs, addrs);
    }
  }

  lemma DriftIgnoresNew(book: Book, book': Book, objs: map<Address, Obj>, addrs: set<Address>)
    requires OnlyNewAccounts(book, book') && addrs <= book.Keys
    ensures Drift(book', objs, addrs) == Drift(book, objs, addrs)
  {
    assert Part(book', addrs) == Part(book, addrs);
  }

  lemma MoveDrifts(book: Book, objs: map<Address, Obj>, from: Address, to: Address, amount: nat, addrs: set<Address>)
    requires amount <= ObjAt(objs, from).balance
    ensures Drift(book, AddTo(AddTo(objs, from, 0 - amount), to, amount), addrs)
         == Drift(book, objs, addrs) + (if to in addrs then amount else 0) - (if from in addrs then amount else 0)
  {
    var taken := AddTo(objs, from, 0 - amount);
    DriftPut(book, objs, from, taken[from], addrs);
    DriftPut(book, taken, to, AddTo(taken, to, amount)[to], addrs);
  }

  /** What has flowed into the accessed addresses: now, and at each snapshot of the transaction that a revert can go back to. */
  datatype Flow = Flow(net: int, marks: seq<int>)

  /** How an operation moves the flow; n is the number of the transaction's first revision. */
  function FlowStep(f: Flow, w: Wrapper, op: Op, n: nat): Flow
  {
    match op
    case DoAccess(_) => f
    case DoPut(a, o) => f.(net := f.net + if a in w.accessed then o.balance - ObjAt(w.objs, a).balance else 0)
    case DoMove(from, to, amount) =>
      if ObjAt(w.objs, from).balance < amount then f
      else f.(net := f.net + (if to in w.accessed then amount else 0) - (if from in w.accessed then amount else 0))
    case DoSnapshot => f.(marks := f.marks + [f.net])
    case DoRevert(id) => if Valid(w, id) then Rewound(f, Find(w.revisions, id) - n) else f
  }

  function Rewound(f: Flow, j: int): Flow
  {
    if 0 <= j < |f.marks| then Flow(f.marks[j], f.marks[..j]) else f
  }

  /** The flow of a whole run: what a revert undoes does not count. */
  function FlowOf(f: Flow, w: Wrapper, ops: seq<Op>, n: nat): Flow
  {
    if ops == [] then f else FlowStep(FlowOf(f, w, ops[..|ops| - 1], n), Run(w, ops[..|ops| - 1]), ops[|ops| - 1], n)
  }

  /** The accesses that revision i would restore. */
  function AccessedAt(w: Wrapper, i: nat): set<Address>
    requires i < |w.revisions|
  {
    UpTo(w.accessed, w.revisions[i].id).Keys
  }

  ghost function DriftAt(w: Wrapper, i: nat): int
    requires i < |w.revisions|
  {
    Drift(w.book, w.revisions[i].objs, AccessedAt(w, i))
  }

  /** Now, and wherever a revert down to revision n can lead, the copies exceed the accounts by what has flowed in. */
  ghost predicate Flows(w: Wrapper, n: nat, f: Flow)
  {
    && Inv(w) && w.nextId > 0 && w.accessed.Keys <= w.book.Keys
    && Drift(w.book, w.objs, w.accessed.Keys) == f.net
    && |w.revisions| == n + |f.marks|
    && forall i | 0 <= i < |f.marks| :: DriftAt(w, n + i) == f.marks[i]
  }

  /** The first access copies the account, so nothing drifts. */
  lemma AccessAddsNoDrift(w: Wrapper, a: Address)
    requires a !in w.accessed && w.accessed.Keys <= w.book.Keys
    ensures var w' := Access(w, a); Drift(w'.book, w'.objs, w'.accessed.Keys) == Drift(w.book, w.objs, w.accessed.Keys)
  {
    var w' := Access(w, a);
    assert w'.accessed.Keys == w.accessed.Keys + {a};
    DriftIgnoresNew(w.book, w'.book, w.objs, w.accessed.Keys);
    DriftPut(w'.book, w.objs, a, w'.objs[a], w.accessed.Keys);
    DriftMore(w'.book, w'.objs, w.accessed.Keys, a);
  }

  lemma AccessKeepsRevision(w: Wrapper, a: Address, i: nat)
    requires a !in w.accessed && w.accessed.Keys <= w.book.Keys && i < |w.revisions| && w.revisions[i].id < w.snapshot + 1
    ensures DriftAt(Access(w, a), i) == DriftAt(w, i)
  {
    var w' := Access(w, a);
    assert AccessedAt(w', i) == AccessedAt(w, i);
    DriftIgnoresNew(w.book, w'.book, w.revisions[i].objs, AccessedAt(w, i));
  }

  lemma AccessFlows(w: Wrapper, a: Address, n: nat, f: Flow)
    requires Flows(w, n, f)
    ensures Flows(Access(w, a), n, f)
  {
    if a !in w.accessed {
      var w' := Access(w, a);
      AccessAddsNoDrift(w, a);
      forall i | 0 <= i < |f.marks| ensures DriftAt(w', n + i) == f.marks[i] {
        AccessKeepsRevision(w, a, n + i);
      }
    }
  }

  lemma SnapshotFlows(w: Wrapper, n: nat, f: Flow)
    requires Flows(w, n, f)
    ensures Flows(TakeSnapshot(w), n, f.(marks := f.marks + [f.net]))
  {
    var w', marks := TakeSnapshot(w), f.marks + [f.net];
    forall i | 0 <= i < |marks| ensures DriftAt(w', n + i) == marks[i] {
      if i < |f.marks| {
        assert AccessedAt(w', n + i) == AccessedAt(w, n + i);
      } else {
        assert UpTo(w.accessed, w.nextId) == w.accessed;
      }
    }
  }

  lemma RevertFlows(w: Wrapper, id: int, n: nat, f: Flow, j: int)
    requires Flows(w, n, f) && Valid(w, id) && j == Find(w.revisions, id) - n >= 0
    ensures Flows(RevertTo(w, id), n, Rewound(f, j))
  {
    var w' := RevertTo(w, id);
    assert DriftAt(w, n + j) == f.marks[j];
    forall i | 0 <= i < j ensures DriftAt(w', n + i) == f.marks[..j][i] { RevertKeepsRevision(w, id, n + i); }
    assert w'.accessed.Keys == AccessedAt(w, n + j);
  }

  lemma RevertKeepsRevision(w: Wrapper, id: int, i: nat)
    requires Inv(w) && Valid(w, id) && i < Find(w.revisions, id)
    ensures DriftAt(RevertTo(w, id), i) == DriftAt(w, i)
  {
    assert UpTo(RevertTo(w, id).accessed, w.revisions[i].id) == UpTo(w.accessed, w.revisions[i].id);
  }

  lemma FlowsWith(w: Wrapper, objs: map<Address, Obj>, n: nat, f: Flow, net: int)
    requires Flows(w, n, f) && Drift(w.book, objs, w.accessed.Keys) == net
    ensures Flows(w.(objs := objs), n, f.(net := net))
  {
    var w' := w.(objs := objs);
    forall i | 0 <= i < |f.marks| ensures DriftAt(w', n + i) == f.marks[i] { assert DriftAt(w, n + i) == f.marks[i]; }
  }

  lemma NestedIsLater(w: Wrapper, id: int, was: Wrapper)
    requires Recoverable(w, was) && Valid(w, id) && id > was.nextId
    ensures |was.revisions| < Find(w.revisions, id)
  {
    var n := |was.revisions|;
    assert w.revisions[n] == w.revisions[..n + 1][n];
  }

  lemma PutFlows(w: Wrapper, a: Address, o: Obj, n: nat, f: Flow)
    requires Flows(w, n, f)
    ensures Flows(Step(w, DoPut(a, o)), n, FlowStep(f, w, DoPut(a, o), n))
  {
    DriftPut(w.book, w.objs, a, o, w.accessed.Keys);
    FlowsWith(w, w.objs[a := o], n, f, FlowStep(f, w, DoPut(a, o), n).net);
  }

  lemma MoveFlows(w: Wrapper, from: Address, to: Address, amount: nat, n: nat, f: Flow)
    requires Flows(w, n, f)
    ensures Flows(Step(w, DoMove(from, to, amount)), n, FlowStep(f, w, DoMove(from, to, amount), n))
  {
    if amount <= ObjAt(w.objs, from).balance {
      var objs := AddTo(AddTo(w.objs, from, 0 - amount), to, amount);
      MoveDrifts(w.book, w.objs, from, to, amount, w.accessed.Keys);
      FlowsWith(w, objs, n, f, Drift(w.book, objs, w.accessed.Keys));
    }
  }

  lemma RevertIs(w: Wrapper, id: int, n: nat, f: Flow) returns (j: int, w': Wrapper, g: Flow)
    requires Valid(w, id)
    ensures j == Find(w.revisions, id) - n && w' == RevertTo(w, id) == Step(w, DoRevert(id))
    ensures g == Rewound(f, j) == FlowStep(f, w, DoRevert(id), n)
  {
    j, w' := Find(w.revisions, id) - n, RevertTo(w, id);
    g := Rewound(f, j);
  }

  lemma NestedRevertFlows(w: Wrapper, id: int, n: nat, was: Wrapper, f: Flow) returns (w': Wrapper, g: Flow)
    requires Flows(w, n, f) && Recoverable(w, was) && n == |was.revisions| && id > was.nextId
    ensures w' == Step(w, DoRevert(id)) && g == FlowStep(f, w, DoRevert(id), n) && Flows(w', n, g)
  {
    if Valid(w, id) {
      var j;
      j, w', g := RevertIs(w, id, n, f);
      NestedIsLater(w, id, was);
      RevertFlows(w, id, n, f, j);
    } else {
      w', g := w, f;
    }
  }

  lemma StepFlows(w: Wrapper, op: Op, n: nat, was: Wrapper, f: Flow)
    requires Flows(w, n, f) && Recoverable(w, was) && n == |was.revisions| && (op.DoRevert? ==> op.id > was.nextId)
    ensures Flows(Step(w, op), n, FlowStep(f, w, op, n))
  {
    match op
    case DoAccess(a) => AccessFlows(w, a, n, f);
    case DoPut(a, o) => PutFlows(w, a, o, n, f);
    case DoMove(from, to, amount) => MoveFlows(w, from, to, amount, n, f);
    case DoSnapshot => SnapshotFlows(w, n, f);
    case DoRevert(id) => var w', g := NestedRevertFlows(w, id, n, was, f);
  }

  lemma {:induction false} RunFlows(w: Wrapper, ops: seq<Op>, was: Wrapper, f: Flow)
    requires Flows(w, |was.revisions|, f) && Recoverable(w, was) && Nested(ops, was.nextId)
    ensures Flows(Run(w, ops), |was.revisions|, FlowOf(f, w, ops, |was.revisions|))
  {
    if ops != [] {
      var front, op := ops[..|ops| - 1], ops[|ops| - 1];
      assert op in ops && forall o | o in front :: o in ops;
      RunFlows(w, front, was, f);
      RunKeepsRecoverable(w, front, was);
      StepFlows(Run(w, front), op, |was.revisions|, was, FlowOf(f, w, front, |was.revisions|));
    }
  }

  lemma StartFlows(w: Wrapper)
    requires Inv(w) && w.accessed == map[]
    ensures Flows(TakeSnapshot(w), |w.revisions|, Flow(0, [0]))
  {
    assert Copies(w.objs, {}) == map[] && Part(w.book, {}) == map[];
    assert w.accessed.Keys == {} && UpTo(w.accessed, w.nextId).Keys == {};
  }

  lemma PreparedFlows(w: Wrapper, from: Address, to: Option<Address>)
    requires Inv(w) && w.accessed == map[]
    ensures Flows(Started(w, from, to), |w.revisions|, Flow(0, [0])) && Recoverable(Started(w, from, to), w)
  {
    var s, n := TakeSnapshot(w), |w.revisions|;
    StartFlows(w);
    SnapshotIsRecoverable(w);
    AccessFlows(s, from, n, Flow(0, [0]));
    AccessKeepsRecoverable(s, from, w);
    if to.Some? {
      AccessFlows(Access(s, from), to.value, n, Flow(0, [0]));
      AccessKeepsRecoverable(Access(s, from), to.value, w);
    }
  }

  /** What has flowed into the accessed addresses over a transaction's run. */
  function NetFlow(w: Wrapper, from: Address, to: Option<Address>, ops: seq<Op>): int
  {
    FlowOf(Flow(0, [0]), Started(w, from, to), ops, |w.revisions|).net
  }

  lemma FinishedFlows(r: Wrapper, n: nat, f: Flow)
    requires Flows(r, n, f)
    ensures TotalBalance(Finish(r).book) == TotalBalance(r.book) + f.net && Inv(Finish(r))
  {
    WriteBackMovesByDrift(r.book, r.objs, r.accessed.Keys);
  }

  /**
   A contract transaction that succeeds moves the sum of all balances by exactly what has flowed into the accessed
   addresses, reverted flows left out; so it conserves the sum exactly when nothing has flowed in or out on balance.
   */
  lemma SuccessfulTrxMovesByFlow(w: Wrapper, from: Address, to: Option<Address>, ops: seq<Op>)
    requires Inv(w) && w.accessed == map[] && Nested(ops, w.nextId)
    ensures var f := Finish(Run(Started(w, from, to), ops));
            TotalBalance(f.book) == TotalBalance(w.book) + NetFlow(w, from, to, ops) && f.accessed == map[] && Inv(f)
  {
    var s, n := Started(w, from, to), |w.revisions|;
    PreparedFlows(w, from, to);
    RunFlows(s, ops, w, Flow(0, [0]));
    FinishedFlows(Run(s, ops), n, FlowOf(Flow(0, [0]), s, ops, n));
    TrxIsRecoverable(w, from, to, ops);
    NewAccountsAddNothing(w.book, Run(s, ops).book);
  }

  /** An operation that moves coins only between accessed addresses. */
  predicate Moves(w: Wrapper, op: Op)
  {
    match op
    case DoPut(a, o) => o.balance == ObjAt(w.objs, a).balance
    case DoMove(from, to, _) => from in w.accessed && to in w.accessed
    case _ => true
  }

  predicate AllMove(w: Wrapper, ops: seq<Op>)
  {
    ops == [] || (AllMove(w, ops[..|ops| - 1]) && Moves(Run(w, ops[..|ops| - 1]), ops[|ops| - 1]))
  }

  ghost predicate NoFlow(f: Flow)
  {
    f.net == 0 && forall i | 0 <= i < |f.marks| :: f.marks[i] == 0
  }

  lemma {:induction false} MovesDoNotFlow(f: Flow, w: Wrapper, ops: seq<Op>, n: nat)
    requires NoFlow(f) && AllMove(w, ops)
    ensures NoFlow(FlowOf(f, w, ops, n))
  {
    if ops != [] { MovesDoNotFlow(f, w, ops[..|ops| - 1], n); }
  }

  /** One whose EVM run moves coins only between accessed addresses does. */
  lemma SuccessfulTrxConserves(w: Wrapper, from: Address, to: Option<Address>, ops: seq<Op>)
    requires Inv(w) && w.accessed == map[] && Nested(ops, w.nextId) && AllMove(Started(w, from, to), ops)
    ensures TotalBalance(Finish(Run(Started(w, from, to), ops)).book) == TotalBalance(w.book)
  {
    SuccessfulTrxMovesByFlow(w, from, to, ops);
    MovesDoNotFlow(Flow(0, [0]), Started(w, from, to), ops, |w.revisions|);
  }

  // ----- Account by account -----

  /** The nonce and the balance of every accessed address are written back, its name and document kept; no other account changes. */
  lemma FinishGivesBack(w: Wrapper, a: Address)
    requires a in w.book
    ensures a in Finish(w).book
    ensures var was, now, o := w.book[a], Finish(w).book[a], ObjAt(w.objs, a);
            now == if a in w.accessed then Account(o.nonce, o.balance, was.name, was.docURL) else was
  {
  }

  /** The EVM neither writes to the address nor moves coins from or to it. */
  predicate Leaves(op: Op, a: Address)
  {
    match op
    case DoPut(b, _) => b != a
    case DoMove(from, to, _) => from != a && to != a
    case _ => true
  }

  ghost predicate Copied(objs: map<Address, Obj>, book: Book, a: Address)
  {
    a in objs && a in book && objs[a].nonce == book[a].nonce && objs[a].balance == book[a].balance
  }

  /** Wherever the address counts as accessed, now or after a revert, the database holds what its account says. */
  ghost predicate Faithful(w: Wrapper, a: Address)
  {
    a in w.accessed ==>
      && Copied(w.objs, w.book, a)
      && forall i | 0 <= i < |w.revisions| && w.accessed[a] <= w.revisions[i].id :: Copied(w.revisions[i].objs, w.book, a)
  }

  lemma StepStaysFaithful(w: Wrapper, op: Op, a: Address)
    requires Inv(w) && w.nextId > 0 && Faithful(w, a) && Leaves(op, a)
    ensures Faithful(Step(w, op), a)
  {
  }

  lemma {:induction false} RunStaysFaithful(w: Wrapper, ops: seq<Op>, a: Address, was: Wrapper)
    requires Recoverable(w, was) && Faithful(w, a) && forall op | op in ops :: Leaves(op, a) && (op.DoRevert? ==> op.id > was.nextId)
    ensures Faithful(Run(w, ops), a)
  {
    if ops != [] {
      var front, op := ops[..|ops| - 1], ops[|ops| - 1];
      assert forall o | o in front :: o in ops;
      assert op in ops;
      RunStaysFaithful(w, front, a, was);
      RunKeepsRecoverable(w, front, was);
      StepStaysFaithful(Run(w, front), op, a);
    }
  }

  /**
   A successful contract transaction changes no account that its EVM run leaves alone, accessed or not and
   whatever was reverted.
   */
  lemma UntouchedAccountIsKept(w: Wrapper, from: Address, to: Option<Address>, ops: seq<Op>, a: Address)
    requires Inv(w) && w.accessed == map[] && Nested(ops, w.nextId) && (forall op | op in ops :: Leaves(op, a)) && a in w.book
    ensures var f := Finish(Run(Started(w, from, to), ops)); a in f.book && f.book[a] == w.book[a]
  {
    var all, r := PrepareOps(from, to) + ops, Run(Started(w, from, to), ops);
    PrepareIsRun(w, from, to);
    RunConcat(TakeSnapshot(w), PrepareOps(from, to), ops);
    SnapshotIsRecoverable(w);
    RunStaysFaithful(TakeSnapshot(w), all, a, w);
    TrxIsRecoverable(w, from, to, ops);
    FinishGivesBack(r, a);
  }

  // ----- The object -----

  /** StateDBWrapper, with what it uses of the accounts and of the database. */
  class StateDBWrapper {
    var book: Book
    var objs: map<Address, Obj>
    var nextId: nat
    var revisions: seq<Revision>
    var accessedObjAddrs: map<Address, int>
    var snapshot: int

    ghost function View(): Wrapper
      reads this
    {
      Wrapper(book, objs, nextId, revisions, accessedObjAddrs, snapshot)
    }

    method AddAccessedObjAddr(a: Address)
      modifies this`book, this`objs, this`accessedObjAddrs
      ensures View() == Access(old(View()), a)
    {
      if a !in accessedObjAddrs {
        book := FindOrNew(book, a);
        objs := objs[a := Obj(book[a].nonce, book[a].balance)];
        accessedObjAddrs := accessedObjAddrs[a := snapshot + 1];
      }
    }

    method DoPrepare(from: Address, to: Option<Address>, snap: int)
      modifies this`book, this`objs, this`accessedObjAddrs, this`snapshot
      ensures View() == Prepare(old(View()), from, to, snap)
    {
      snapshot := snap;
      AddAccessedObjAddr(from);
      if to.Some? {
        AddAccessedObjAddr(to.value);
      }
    }

    method Snapshot() returns (id: nat)
      modifies this`nextId, this`revisions, this`snapshot
      ensures id == old(nextId) && View() == TakeSnapshot(old(View()))
    {
      id := nextId;
      revisions := revisions + [Revision(id, objs)];
      nextId := nextId + 1;
      snapshot := id;
    }

    /** Collects the addresses marked after the snapshot, then deletes them. */
    method RevertAccessedObjAddr(id: int)
      modifies this`accessedObjAddrs
      ensures accessedObjAddrs == UpTo(old(accessedObjAddrs), id)
    {
      var revertAddrs, todo := [], accessedObjAddrs.Keys;
      while todo != {}
        invariant todo <= accessedObjAddrs.Keys
        invariant forall a :: a in revertAddrs <==> a in accessedObjAddrs.Keys - todo && id < accessedObjAddrs[a]
        decreases todo
      {
        var a :| a in todo;
        if id < accessedObjAddrs[a] {
          revertAddrs := revertAddrs + [a];
        }
        todo := todo - {a};
      }
      ghost var before := accessedObjAddrs;
      var i := 0;
      while i < |revertAddrs|
        invariant 0 <= i <= |revertAddrs|
        invariant accessedObjAddrs == before - (set a | a in revertAddrs[..i])
      {
        assert revertAddrs[..i + 1] == revertAddrs[..i] + [revertAddrs[i]];
        accessedObjAddrs := accessedObjAddrs - {revertAddrs[i]};
        i := i + 1;
      }
      assert revertAddrs[..i] == revertAddrs;
    }

    method RevertToSnapshot(id: int)
      requires Valid(View(), id)
      modifies this`accessedObjAddrs, this`objs, this`revisions
      ensures View() == RevertTo(old(View()), id)
    {
      RevertAccessedObjAddr(id);
      var i := Find(revisions, id);
      objs := revisions[i].objs;
      revisions := revisions[..i];
    }

    /** The accessed addresses are written back one after the other, in any order. */
    method DoFinish()
      modifies this`book, this`accessedObjAddrs
      ensures View() == Finish(old(View()))
    {
      var todo := accessedObjAddrs.Keys;
      while todo != {}
        invariant todo <= accessedObjAddrs.Keys && accessedObjAddrs == old(accessedObjAddrs)
        invariant book == WriteBack(old(book), objs, accessedObjAddrs.Keys - todo)
        decreases todo
      {
        var a :| a in todo;
        WriteOneMore(old(book), objs, accessedObjAddrs.Keys - todo, a);
        book := FindOrNew(book, a);
        book := book[a := Restored(book[a], ObjAt(objs, a))];
        todo := todo - {a};
        assert accessedObjAddrs.Keys - todo == accessedObjAddrs.Keys - (todo + {a}) + {a};
      }
      assert accessedObjAddrs.Keys - {} == accessedObjAddrs.Keys;
      accessedObjAddrs := map[];
    }
  }

  lemma WriteOneMore(book: Book, objs: map<Address, Obj>, addrs: set<Address>, a: Address)
    requires a !in addrs
    ensures var was := FindOrNew(WriteBack(book, objs, addrs), a);
            WriteBack(book, objs, addrs + {a}) == was[a := Restored(was[a], ObjAt(objs, a))]
  {
  }
}
