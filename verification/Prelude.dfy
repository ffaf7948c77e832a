/**
 Values shared by all parts of the model: optional values, byte strings with the
 order of Go's bytes.Compare, sums over sequences and maps, and what is known
 about the result of Go's sort.Sort, which is not stable.
 */
module Prelude {

  datatype Option<+T> = None | Some(value: T)

  type Byte = b: int | 0 <= b < 256

  type Bytes = seq<Byte>

  /** bytes.Compare(a, b) < 0 */
  predicate Less(a: Bytes, b: Bytes)
  {
    if a == [] || b == [] then |a| < |b|
    else if a[0] != b[0] then a[0] < b[0]
    else Less(a[1..], b[1..])
  }

  lemma {:induction false} LessIrreflexive(a: Bytes)
    ensures !Less(a, a)
  {
    if a != [] { LessIrreflexive(a[1..]); }
  }

  lemma {:induction false} LessTransitive(a: Bytes, b: Bytes, c: Bytes)
    requires Less(a, b) && Less(b, c)
    ensures Less(a, c)
  {
    if a != [] && b != [] && c != [] && a[0] == b[0] == c[0] {
      LessTransitive(a[1..], b[1..], c[1..]);
    }
  }

  lemma {:induction false} LessConnected(a: Bytes, b: Bytes)
    ensures a == b || Less(a, b) || Less(b, a)
  {
    if a != [] && b != [] && a[0] == b[0] {
      LessConnected(a[1..], b[1..]);
      assert a == [a[0]] + a[1..] && b == [b[0]] + b[1..];
    }
  }

  /** The order facts, for every pair and triple of byte strings at once. */
  lemma LessIsStrictTotal()
    ensures forall a: Bytes :: !Less(a, a)
    ensures forall a: Bytes, b: Bytes, c: Bytes :: Less(a, b) && Less(b, c) ==> Less(a, c)
    ensures forall a: Bytes, b: Bytes :: a == b || Less(a, b) || Less(b, a)
  {
    forall a: Bytes ensures !Less(a, a) { LessIrreflexive(a); }
    forall a: Bytes, b: Bytes, c: Bytes | Less(a, b) && Less(b, c) ensures Less(a, c) { LessTransitive(a, b, c); }
    forall a: Bytes, b: Bytes ensures a == b || Less(a, b) || Less(b, a) { LessConnected(a, b); }
  }

  /** Go's integer division, which truncates toward zero. */
  function Quo(a: int, b: int): int
    requires b > 0
  {
    if a >= 0 then a / b else -(-a / b)
  }

  lemma ProductGrows(x: int, y: int, b: nat)
    requires x <= y
    ensures x * b <= y * b
  {
  }

  /** A quotient reaches a bound exactly when the dividend reaches its product with the divisor. */
  lemma QuoAtLeast(a: nat, b: nat, bound: int)
    requires b > 0
    ensures Quo(a, b) >= bound <==> a >= bound * b
  {
    var q := a / b;
    assert q * b <= a < q * b + b;
    if q >= bound {
      ProductGrows(bound, q, b);
    } else {
      ProductGrows(q + 1, bound, b);
      assert (q + 1) * b == q * b + b;
    }
  }

  // ----- Sums -----

  function SumSeq<T>(f: T -> int, s: seq<T>): int
  {
    if s == [] then 0 else f(s[0]) + SumSeq(f, s[1..])
  }

  lemma {:induction false} SumSeqConcat<T>(f: T -> int, a: seq<T>, b: seq<T>)
    ensures SumSeq(f, a + b) == SumSeq(f, a) + SumSeq(f, b)
  {
    if a == [] {
      assert a + b == b;
    } else {
      assert (a + b)[1..] == a[1..] + b;
      SumSeqConcat(f, a[1..], b);
    }
  }

  lemma SumSeqAppend<T>(f: T -> int, a: seq<T>, x: T)
    ensures SumSeq(f, a + [x]) == SumSeq(f, a) + f(x)
  {
    SumSeqConcat(f, a, [x]);
  }

  lemma SumSeqRemoveAt<T>(f: T -> int, s: seq<T>, i: nat)
    requires i < |s|
    ensures SumSeq(f, s[..i] + s[i + 1..]) == SumSeq(f, s) - f(s[i])
  {
    var a, x, b := s[..i], s[i], s[i + 1..];
    assert s == (a + [x]) + b;
    SumSeqConcat(f, a + [x], b);
    SumSeqAppend(f, a, x);
    SumSeqConcat(f, a, b);
  }

  lemma {:induction false} SumSeqNonNegative<T>(f: T -> int, s: seq<T>)
    requires forall x | x in s :: f(x) >= 0
    ensures SumSeq(f, s) >= 0
    ensures forall x | x in s :: f(x) <= SumSeq(f, s)
  {
    if s != [] {
      assert forall x | x in s[1..] :: x in s;
      SumSeqNonNegative(f, s[1..]);
    }
  }

  /** The sum of f over the values of a map. */
  ghost function SumMap<K, V>(f: V -> int, m: map<K, V>): int
    decreases |m|
  {
    if m == map[] then 0
    else
      var k :| k in m;
      f(m[k]) + SumMap(f, m - {k})
  }

  /** Which key is taken out first does not matter. */
  lemma {:induction false} SumMapExtract<K, V>(f: V -> int, m: map<K, V>, k: K)
    requires k in m
    ensures SumMap(f, m) == f(m[k]) + SumMap(f, m - {k})
    decreases |m|
  {
    var j :| j in m && SumMap(f, m) == f(m[j]) + SumMap(f, m - {j});
    if j != k {
      SumMapExtract(f, m - {j}, k);
      SumMapExtract(f, m - {k}, j);
      assert m - {j} - {k} == m - {k} - {j};
    }
  }

  /** What a key contributes to the sum: nothing when it is absent. */
  function At<K, V>(f: V -> int, m: map<K, V>, k: K): int
  {
    if k in m then f(m[k]) else 0
  }

  lemma SumMapUpdate<K, V>(f: V -> int, m: map<K, V>, k: K, v: V)
    ensures SumMap(f, m[k := v]) == SumMap(f, m) - At(f, m, k) + f(v)
  {
    SumMapExtract(f, m[k := v], k);
    assert m[k := v] - {k} == m - {k};
    if k in m {
      SumMapExtract(f, m, k);
    } else {
      assert m - {k} == m;
    }
  }

  lemma SumMapRemove<K, V>(f: V -> int, m: map<K, V>, k: K)
    ensures SumMap(f, m - {k}) == SumMap(f, m) - At(f, m, k)
  {
    if k in m {
      SumMapExtract(f, m, k);
    } else {
      assert m - {k} == m;
    }
  }

  lemma {:induction false} SumMapNonNegative<K, V>(f: V -> int, m: map<K, V>)
    requires forall k | k in m :: f(m[k]) >= 0
    ensures SumMap(f, m) >= 0
    decreases |m|
  {
    if m != map[] {
      var k :| k in m && SumMap(f, m) == f(m[k]) + SumMap(f, m - {k});
      SumMapNonNegative(f, m - {k});
    }
  }

  /** Two different keys together contribute at most the whole sum. */
  lemma SumMapBounds<K, V>(f: V -> int, m: map<K, V>, k: K)
    requires forall x | x in m :: f(m[x]) >= 0
    ensures At(f, m, k) <= SumMap(f, m)
  {
    SumMapRemove(f, m, k);
    SumMapNonNegative(f, m - {k});
  }

  /** The sum of f over the values of some keys, each as often as it is listed. */
  function SumKeys<K, V>(f: V -> int, m: map<K, V>, ks: seq<K>): int
    requires forall k | k in ks :: k in m
  {
    if ks == [] then 0 else SumKeys(f, m, ks[..|ks| - 1]) + f(m[ks[|ks| - 1]])
  }

  /** The sum over a map is that over different keys and that over the rest. */
  lemma {:induction false} SumKeysSplit<K, V>(f: V -> int, m: map<K, V>, ks: seq<K>)
    requires Distinct(ks) && forall k | k in ks :: k in m
    ensures SumMap(f, m) == SumKeys(f, m, ks) + SumMap(f, m - (set k | k in ks))
  {
    if ks == [] {
      assert m - (set k | k in ks) == m;
    } else {
      var front, k := ks[..|ks| - 1], ks[|ks| - 1];
      assert k !in front && forall x :: x in ks <==> x in front || x == k;
      SumKeysSplit(f, m, front);
      var rest := m - (set x | x in front);
      SumMapExtract(f, rest, k);
      assert rest - {k} == m - (set x | x in ks);
    }
  }

  lemma SetBeforeOrAfter<K, V>(m: map<K, V>, k: K, v: V, r: map<K, V>)
    requires k !in r
    ensures m[k := v] + r == m + r[k := v]
  {
  }

  // ----- Enumerations -----

  /** ks lists the elements of a set, each once. */
  ghost predicate Enumerates<T(!new)>(ks: seq<T>, s: set<T>)
  {
    Distinct(ks) && forall k :: k in ks <==> k in s
  }

  ghost function AnyOrder<T>(s: set<T>): seq<T>
  {
    if s == {} then []
    else
      var k :| k in s;
      [k] + AnyOrder(s - {k})
  }

  lemma {:induction false} AnyOrderLists<T(!new)>(s: set<T>)
    ensures Enumerates(AnyOrder(s), s)
  {
    if s != {} {
      var k :| k in s && AnyOrder(s) == [k] + AnyOrder(s - {k});
      AnyOrderLists(s - {k});
    }
  }

  lemma EnumerationsPermute<T(!new)>(a: seq<T>, b: seq<T>, s: set<T>)
    requires Enumerates(a, s) && Enumerates(b, s)
    ensures multiset(a) == multiset(b)
  {
    DistinctCounts(a);
    DistinctCounts(b);
    forall k ensures multiset(a)[k] == multiset(b)[k] {
      assert k in multiset(a) <==> k in a;
      assert k in multiset(b) <==> k in b;
    }
  }

  // ----- Sorting -----

  predicate Distinct<T(==)>(s: seq<T>)
  {
    forall i, j | 0 <= i < j < |s| :: s[i] != s[j]
  }

  /** What sort.Sort promises of its result: no later element is less than an earlier one. */
  ghost predicate Sorted<T>(less: (T, T) -> bool, s: seq<T>)
  {
    forall i, j | 0 <= i < j < |s| :: !less(s[j], s[i])
  }

  /** b is a possible result of sort.Sort on a. */
  ghost predicate SortOf<T>(less: (T, T) -> bool, a: seq<T>, b: seq<T>)
  {
    multiset(a) == multiset(b) && Sorted(less, b)
  }

  /** What sort.Sort asks of Less: a strict weak order. */
  ghost predicate WeakOrder<T(!new)>(less: (T, T) -> bool)
  {
    && (forall x, y :: less(x, y) ==> !less(y, x))
    && (forall x, y, z :: less(x, z) ==> less(x, y) || less(y, z))
  }

  ghost predicate Connected<T>(less: (T, T) -> bool, s: seq<T>)
  {
    forall x, y | x in s && y in s && x != y :: less(x, y) || less(y, x)
  }

  lemma HeadsAgree<T>(less: (T, T) -> bool, a: seq<T>, b: seq<T>)
    requires multiset(a) == multiset(b) && a != [] && b != []
    requires Sorted(less, a) && Sorted(less, b) && Connected(less, a)
    ensures a[0] == b[0]
  {
    assert a[0] in multiset(b) && b[0] in multiset(a);
    var i :| 0 <= i < |a| && a[i] == b[0];
    var j :| 0 <= j < |b| && b[j] == a[0];
    assert i == 0 || !less(a[i], a[0]);
    assert j == 0 || !less(b[j], b[0]);
    assert a[0] in a && a[i] in a;
  }

  lemma TailsPermute<T>(a: seq<T>, b: seq<T>)
    requires multiset(a) == multiset(b) && a != [] && b != [] && a[0] == b[0]
    ensures multiset(a[1..]) == multiset(b[1..])
  {
    assert a == [a[0]] + a[1..];
    assert b == [b[0]] + b[1..];
    assert multiset(a[1..]) == multiset(a) - multiset{a[0]};
    assert multiset(b[1..]) == multiset(b) - multiset{b[0]};
  }

  /** When Less separates all different elements, every result of sort.Sort is the same one. */
  lemma {:induction false} SortUnique<T>(less: (T, T) -> bool, a: seq<T>, b: seq<T>)
    requires multiset(a) == multiset(b)
    requires Sorted(less, a) && Sorted(less, b) && Connected(less, a)
    ensures a == b
  {
    assert |multiset(a)| == |multiset(b)|;
    if a != [] {
      HeadsAgree(less, a, b);
      TailsPermute(a, b);
      var x, y := a[1..], b[1..];
      assert Connected(less, x) by { assert forall e | e in x :: e in a; }
      SortUnique(less, x, y);
      assert a == [a[0]] + x && b == [b[0]] + y;
    }
  }

  function Insert<T>(less: (T, T) -> bool, x: T, s: seq<T>): seq<T>
  {
    if s == [] then [x]
    else if less(x, s[0]) then [x] + s
    else [s[0]] + Insert(less, x, s[1..])
  }

  lemma {:induction false} InsertPermutes<T>(less: (T, T) -> bool, x: T, s: seq<T>)
    ensures multiset(Insert(less, x, s)) == multiset{x} + multiset(s)
  {
    if s != [] && !less(x, s[0]) {
      InsertPermutes(less, x, s[1..]);
      assert s == [s[0]] + s[1..];
    }
  }

  lemma {:induction false} InsertSorts<T(!new)>(less: (T, T) -> bool, x: T, s: seq<T>)
    requires WeakOrder(less) && Sorted(less, s)
    ensures Sorted(less, Insert(less, x, s))
  {
    if s != [] && !less(x, s[0]) {
      var t := Insert(less, x, s[1..]);
      InsertSorts(less, x, s[1..]);
      InsertPermutes(less, x, s[1..]);
      forall y | y in t ensures !less(y, s[0]) {
        assert y in multiset(t);
      }
    } else if s != [] {
      var head := s[0];
      forall y | y in s ensures !less(y, x) {
        assert less(x, head) ==> less(x, y) || less(y, head);
      }
    }
  }

  /** The model's sort.Sort. */
  function Sort<T>(less: (T, T) -> bool, s: seq<T>): seq<T>
  {
    if s == [] then [] else Insert(less, s[0], Sort(less, s[1..]))
  }

  lemma {:induction false} SortSorts<T(!new)>(less: (T, T) -> bool, s: seq<T>)
    requires WeakOrder(less)
    ensures SortOf(less, s, Sort(less, s))
  {
    if s != [] {
      SortSorts(less, s[1..]);
      InsertSorts(less, s[0], Sort(less, s[1..]));
      InsertPermutes(less, s[0], Sort(less, s[1..]));
      assert s == [s[0]] + s[1..];
    }
  }

  lemma SameElements<T>(a: seq<T>, b: seq<T>)
    requires multiset(a) == multiset(b)
    ensures |a| == |b|
    ensures forall x :: x in a <==> x in b
    ensures Distinct(a) ==> Distinct(b)
  {
    assert |multiset(a)| == |multiset(b)|;
    forall x ensures x in a <==> x in b { assert x in a <==> x in multiset(a); assert x in b <==> x in multiset(b); }
    if Distinct(a) {
      DistinctCounts(a);
      DistinctCounts(b);
    }
  }

  /** A sequence has no repetition exactly when every element is counted once. */
  lemma {:induction false} DistinctCounts<T>(s: seq<T>)
    ensures Distinct(s) <==> forall x | x in s :: multiset(s)[x] == 1
  {
    if s != [] {
      var t := s[1..];
      DistinctCounts(t);
      assert s == [s[0]] + t;
      assert multiset(s) == multiset{s[0]} + multiset(t);
      if Distinct(s) {
        assert s[0] !in t;
        forall x | x in s ensures multiset(s)[x] == 1 {
          assert x != s[0] ==> x in t;
        }
      }
      if forall x | x in s :: multiset(s)[x] == 1 {
        assert multiset(s)[s[0]] == 1;
        assert s[0] !in multiset(t);
        forall x | x in t ensures multiset(t)[x] == 1 { assert x in s; }
      }
    }
  }
}
