/**
 ctrlers/stake/block_marker.go: the heights a validator failed to sign, counted in a
 sliding window and pruned while counting.
 */
module BlockMarkers {

  ghost predicate Increasing(s: seq<int>)
  {
    forall i, j | 0 <= i < j < |s| :: s[i] < s[j]
  }

  /** The marked heights in [h0, h1]. */
  function Window(s: seq<int>, h0: int, h1: int): set<int>
  {
    set h | h in s && h0 <= h <= h1
  }

  function MarkHeights(s: seq<int>, height: int): seq<int>
  {
    if s != [] && s[|s| - 1] >= height then s else s + [height]
  }

  /** The number of leading heights below h0. */
  function Below(s: seq<int>, h0: int): (n: nat)
    ensures n <= |s|
  {
    if s == [] || s[0] >= h0 then 0 else 1 + Below(s[1..], h0)
  }

  /** What a pruning count leaves: nothing is dropped when only one height is too old. */
  function Pruned(s: seq<int>, h0: int): seq<int>
  {
    if Below(s, h0) >= 2 then s[Below(s, h0)..] else s
  }

  /** The marked heights before h0. */
  function Stale(s: seq<int>, h0: int): set<int>
  {
    set h | h in s && h < h0
  }

  lemma {:induction false} BelowSplits(s: seq<int>, h0: int)
    requires Increasing(s)
    ensures forall i | 0 <= i < Below(s, h0) :: s[i] < h0
    ensures forall i | Below(s, h0) <= i < |s| :: s[i] >= h0
  {
    if s != [] && s[0] < h0 {
      BelowSplits(s[1..], h0);
      var n := Below(s[1..], h0);
      forall i | 0 <= i < n + 1 ensures s[i] < h0 { assert i > 0 ==> s[i] == s[1..][i - 1]; }
      forall i | n + 1 <= i < |s| ensures s[i] >= h0 { assert s[i] == s[1..][i - 1]; }
    }
  }

  class BlockMarker {
    var blockHeights: seq<int>

    constructor ()
      ensures blockHeights == []
    {
      blockHeights := [];
    }

    method Mark(height: int) returns (ok: bool)
      modifies this
      ensures blockHeights == MarkHeights(old(blockHeights), height)
      ensures ok <==> blockHeights != old(blockHeights)
      ensures old(Increasing(blockHeights)) ==> Increasing(blockHeights)
    {
      var lastIdx := |blockHeights| - 1;
      if lastIdx >= 0 && blockHeights[lastIdx] >= height { return false; }
      blockHeights := blockHeights + [height];
      return true;
    }

    /** The count is the size of the window, although the loop stops at the first height past it. */
    method CountInWindow(h0: int, h1: int, rewin: bool) returns (count: nat)
      requires Increasing(blockHeights)
      modifies this
      ensures count == |Window(old(blockHeights), h0, h1)|
      ensures blockHeights == if rewin && h0 <= h1 then Pruned(old(blockHeights), h0) else old(blockHeights)
    {
      if h0 > h1 {
        assert Window(blockHeights, h0, h1) == {};
        return 0;
      }
      count := 0;
      var preIdx, i := -1, 0;
      ghost var s := blockHeights;
      BelowSplits(s, h0);
      while i < |blockHeights|
        invariant 0 <= i <= |s| && blockHeights == s
        invariant count == |Window(s[..i], h0, h1)|
        invariant forall k | 0 <= k < i :: s[k] < h1
        invariant preIdx == (if i <= Below(s, h0) then i else Below(s, h0)) - 1
      {
        var h := blockHeights[i];
        if h < h0 { preIdx := i; }
        if h0 <= h <= h1 { count := count + 1; }
        WindowSnoc(s, i, h0, h1);
        i := i + 1;
        if h >= h1 { break; }
      }
      WindowStops(s, i, h0, h1);
      if rewin && preIdx > 0 {
        blockHeights := blockHeights[preIdx + 1..];
      }
    }
  }

  lemma WindowSnoc(s: seq<int>, i: nat, h0: int, h1: int)
    requires Increasing(s) && i < |s|
    ensures |Window(s[..i + 1], h0, h1)| == |Window(s[..i], h0, h1)| + if h0 <= s[i] <= h1 then 1 else 0
  {
    assert s[..i + 1] == s[..i] + [s[i]];
    assert s[i] !in s[..i];
    if h0 <= s[i] <= h1 {
      assert Window(s[..i + 1], h0, h1) == Window(s[..i], h0, h1) + {s[i]};
    } else {
      assert Window(s[..i + 1], h0, h1) == Window(s[..i], h0, h1);
    }
  }

  lemma WindowStops(s: seq<int>, i: nat, h0: int, h1: int)
    requires Increasing(s) && i <= |s|
    requires i < |s| ==> i > 0 && s[i - 1] >= h1
    ensures Window(s[..i], h0, h1) == Window(s, h0, h1)
  {
    forall h | h in s && h <= h1 ensures h in s[..i] {
      var k :| 0 <= k < |s| && s[k] == h;
      assert k < i;
      assert s[..i][k] == h;
    }
  }

  // ----- Pruning is not observable -----

  datatype Op = Mark(height: int) | Count(h0: int, h1: int)

  function StepHeights(s: seq<int>, op: Op, rewin: bool): seq<int>
  {
    match op
    case Mark(h) => MarkHeights(s, h)
    case Count(h0, h1) => if rewin && h0 <= h1 then Pruned(s, h0) else s
  }

  /** The answers of the counts of a run. */
  function Counts(s: seq<int>, ops: seq<Op>, rewin: bool): seq<int>
    decreases |ops|
  {
    if ops == [] then []
    else
      var rest := Counts(StepHeights(s, ops[0], rewin), ops[1..], rewin);
      if ops[0].Count? then [|Window(s, ops[0].h0, ops[0].h1)|] + rest else rest
  }

  ghost predicate WindowsMoveForward(ops: seq<Op>, from: int)
    decreases |ops|
  {
    ops != [] ==>
      match ops[0]
      case Mark(_) => WindowsMoveForward(ops[1..], from)
      case Count(h0, h1) => h0 >= from && WindowsMoveForward(ops[1..], h0)
  }

  /** Two markers that hold the same heights from some height on. */
  ghost predicate SameFrom(s: seq<int>, t: seq<int>, from: int)
  {
    && Increasing(s) && Increasing(t)
    && forall h | h >= from :: h in s <==> h in t
  }

  lemma MarkKeepsSameFrom(s: seq<int>, t: seq<int>, from: int, height: int)
    requires SameFrom(s, t, from)
    ensures SameFrom(MarkHeights(s, height), MarkHeights(t, height), from)
  {
    forall h | h >= from ensures h in MarkHeights(s, height) <==> h in MarkHeights(t, height) {
      MarkAccepts(s, t, from, height);
      MarkAccepts(t, s, from, height);
    }
  }

  /** From that height on, a mark is accepted by both or by none. */
  lemma MarkAccepts(s: seq<int>, t: seq<int>, from: int, height: int)
    requires SameFrom(s, t, from)
    ensures height >= from && height in MarkHeights(s, height) ==> height in MarkHeights(t, height)
    ensures forall h | h != height :: h in MarkHeights(t, height) <==> h in t
  {
    if t != [] && t[|t| - 1] >= height >= from && height in MarkHeights(s, height) {
      var last := t[|t| - 1];
      assert last in s;
      var k :| 0 <= k < |s| && s[k] == last;
      assert s[|s| - 1] >= last;
      assert height in s;
    }
  }

  lemma PruneKeepsSameFrom(s: seq<int>, h0: int)
    requires Increasing(s)
    ensures SameFrom(s, Pruned(s, h0), h0)
    ensures |Stale(Pruned(s, h0), h0)| <= 1
  {
    BelowSplits(s, h0);
    var n := Below(s, h0);
    var p := Pruned(s, h0);
    if n >= 2 {
      forall h | h >= h0 && h in s ensures h in p {
        var k :| 0 <= k < |s| && s[k] == h;
        assert p[k - n] == h;
      }
      assert Stale(p, h0) == {};
    } else {
      assert n == 1 ==> Stale(p, h0) == {s[0]};
      assert n == 0 ==> Stale(p, h0) == {};
    }
  }

  lemma SameWindow(s: seq<int>, t: seq<int>, from: int, h0: int, h1: int)
    requires SameFrom(s, t, from) && h0 >= from
    ensures Window(s, h0, h1) == Window(t, h0, h1)
  {
  }

  lemma SameFromIsTransitive(s: seq<int>, t: seq<int>, u: seq<int>, from: int, later: int)
    requires SameFrom(s, t, from) && SameFrom(t, u, later) && later >= from
    ensures SameFrom(s, u, later)
  {
  }

  /**
   For any sequence of marks, accepted or not, and counts whose windows only move forward, the marker that
   prunes answers like the one that never does.
   */
  lemma {:induction false} PruningIsInvisible(s: seq<int>, t: seq<int>, from: int, ops: seq<Op>)
    requires SameFrom(s, t, from) && WindowsMoveForward(ops, from)
    ensures Counts(s, ops, true) == Counts(t, ops, false)
    decreases |ops|
  {
    if ops != [] {
      match ops[0] {
        case Mark(h) =>
          MarkKeepsSameFrom(s, t, from, h);
          PruningIsInvisible(MarkHeights(s, h), MarkHeights(t, h), from, ops[1..]);
        case Count(h0, h1) =>
          SameWindow(s, t, from, h0, h1);
          var s1 := StepHeights(s, ops[0], true);
          PruneKeepsSameFrom(s, h0);
          if h0 <= h1 {
            assert SameFrom(s1, s, h0);
            SameFromIsTransitive(s1, s, t, h0, h0);
          }
          PruningIsInvisible(s1, t, h0, ops[1..]);
      }
    }
  }
}
