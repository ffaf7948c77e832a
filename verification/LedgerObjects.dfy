/**
 ledger/mem_items.go, simple_ledger.go, finality_ledger.go as objects updated in place.
 Each method is proved to make the step that the Ledger module specifies. The two
 kinds of get are the same code over two caches and are written once.
 */
module LedgerObjects {
  import opened Prelude
  import opened Ledger

  class MemItems<V> {
    var gotItems: Tree<V>
    var updatedItems: Tree<V>
    var removedKeys: seq<Key>

    function View(): Mem<V>
      reads this
    {
      Mem(gotItems, updatedItems, removedKeys)
    }

    constructor ()
      ensures View() == EmptyMem()
    {
      gotItems, updatedItems, removedKeys := map[], map[], [];
    }

    method AppendRemovedKey(key: Key)
      modifies this
      ensures View() == old(View()).(removed := old(removedKeys) + [key])
    {
      removedKeys := removedKeys + [key];
    }

    method IsRemovedKey(key: Key) returns (found: bool)
      ensures found <==> key in removedKeys
    {
      for i := 0 to |removedKeys|
        invariant key !in removedKeys[..i]
      {
        if removedKeys[i] == key { return true; }
      }
      return false;
    }

    method SetGotItem(item: Item<V>)
      modifies this
      ensures View() == old(View()).(got := old(gotItems)[item.key := item])
    {
      gotItems := gotItems[item.key := item];
    }

    method SetUpdatedItem(item: Item<V>)
      modifies this
      ensures View() == old(View()).(updated := old(updatedItems)[item.key := item])
    {
      updatedItems := updatedItems[item.key := item];
    }

    method DelGotItem(key: Key)
      modifies this
      ensures View() == old(View()).(got := old(gotItems) - {key})
    {
      if key in gotItems { gotItems := gotItems - {key}; }
      assert gotItems == old(gotItems) - {key};
    }

    method DelUpdatedItem(key: Key)
      modifies this
      ensures View() == old(View()).(updated := old(updatedItems) - {key})
    {
      if key in updatedItems { updatedItems := updatedItems - {key}; }
      assert updatedItems == old(updatedItems) - {key};
    }

    /** Only the first occurrence is taken out. */
    method DelRemovedKey(key: Key)
      modifies this
      ensures View() == MemCancelDel(old(View()), key)
    {
      for i := 0 to |removedKeys|
        invariant removedKeys == old(removedKeys) && unchanged(this)
        invariant key !in removedKeys[..i]
      {
        if removedKeys[i] == key {
          WithoutFirst(removedKeys, key, i);
          removedKeys := removedKeys[..i] + removedKeys[i + 1..];
          return;
        }
      }
      WithoutAbsent(removedKeys, key);
    }

    method Reset()
      modifies this
      ensures View() == EmptyMem()
    {
      gotItems, updatedItems, removedKeys := map[], map[], [];
    }

    method Refresh()
      modifies this
      ensures View() == MemRefresh(old(View()))
    {
      var todo := updatedItems.Keys;
      while todo != {}
        invariant todo <= updatedItems.Keys
        invariant updatedItems == old(updatedItems)
        invariant gotItems == old(gotItems) + (updatedItems - todo)
        decreases todo
      {
        var k :| k in todo;
        gotItems := gotItems[k := updatedItems[k]];
        todo := todo - {k};
      }
      assert updatedItems - {} == updatedItems;
      updatedItems, removedKeys := map[], [];
    }
  }

  class FinalityLedger<V> {
    var tree: Tree<V>
    var version: nat
    const cachedItems: MemItems<V>
    const finalityItems: MemItems<V>

    ghost predicate Valid()
    {
      cachedItems != finalityItems
    }

    function View(): State<V>
      reads this, cachedItems, finalityItems
    {
      State(tree, version, cachedItems.View(), finalityItems.View())
    }

    constructor ()
      ensures Valid() && fresh(cachedItems) && fresh(finalityItems)
      ensures View() == InitState()
    {
      tree, version := map[], 0;
      cachedItems := new MemItems();
      finalityItems := new MemItems();
    }

    method ReadTree(key: Key) returns (a: Answer<V>)
      ensures a == Read(tree, key)
    {
      if key !in tree { return NotFound; }
      var item := tree[key];
      if key != item.key { return KeyCompromised; }
      return Found(item);
    }

    method GetThrough(items: MemItems<V>, key: Key) returns (a: Answer<V>)
      modifies items
      ensures (items.View(), a) == MemGet(tree, old(items.View()), key)
    {
      var gone := items.IsRemovedKey(key);
      if gone { return NotFound; }
      if key in items.gotItems { return Found(items.gotItems[key]); }
      a := ReadTree(key);
      if a.Found? { items.SetGotItem(a.item); }
    }

    method DelThrough(items: MemItems<V>, key: Key) returns (a: Answer<V>)
      modifies items
      ensures (items.View(), a) == MemDel(tree, old(items.View()), key)
    {
      a := GetThrough(items, key);
      if a.Found? {
        items.DelGotItem(key);
        items.DelUpdatedItem(key);
        items.AppendRemovedKey(key);
      }
    }

    method Set(item: Item<V>)
      requires Valid()
      modifies cachedItems
      ensures View() == Step(old(View()), Op.Set(item)).0
    {
      cachedItems.SetUpdatedItem(item);
      cachedItems.SetGotItem(item);
    }

    method CancelSet(key: Key)
      requires Valid()
      modifies cachedItems
      ensures View() == Step(old(View()), Op.CancelSet(key)).0
    {
      cachedItems.DelUpdatedItem(key);
      cachedItems.DelGotItem(key);
    }

    method Get(key: Key) returns (a: Answer<V>)
      requires Valid()
      modifies cachedItems
      ensures (View(), Returned(a)) == Step(old(View()), Op.Get(key))
    {
      a := GetThrough(cachedItems, key);
    }

    method Del(key: Key) returns (a: Answer<V>)
      requires Valid()
      modifies cachedItems
      ensures (View(), Returned(a)) == Step(old(View()), Op.Del(key))
    {
      a := DelThrough(cachedItems, key);
    }

    method CancelDel(key: Key)
      requires Valid()
      modifies cachedItems
      ensures View() == Step(old(View()), Op.CancelDel(key)).0
    {
      cachedItems.DelRemovedKey(key);
    }

    method SetFinality(item: Item<V>)
      requires Valid()
      modifies finalityItems
      ensures View() == Step(old(View()), Op.SetFinality(item)).0
    {
      finalityItems.SetUpdatedItem(item);
      finalityItems.SetGotItem(item);
    }

    method CancelSetFinality(key: Key)
      requires Valid()
      modifies finalityItems
      ensures View() == Step(old(View()), Op.CancelSetFinality(key)).0
    {
      finalityItems.DelUpdatedItem(key);
      finalityItems.DelGotItem(key);
    }

    method GetFinality(key: Key) returns (a: Answer<V>)
      requires Valid()
      modifies finalityItems
      ensures (View(), Returned(a)) == Step(old(View()), Op.GetFinality(key))
    {
      a := GetThrough(finalityItems, key);
    }

    /** The key leaves the simulation layer too. */
    method DelFinality(key: Key) returns (a: Answer<V>)
      requires Valid()
      modifies cachedItems, finalityItems
      ensures (View(), Returned(a)) == Step(old(View()), Op.DelFinality(key))
    {
      var _ := DelThrough(cachedItems, key);
      a := DelThrough(finalityItems, key);
    }

    method CancelDelFinality(key: Key)
      requires Valid()
      modifies finalityItems
      ensures View() == Step(old(View()), Op.CancelDelFinality(key)).0
    {
      finalityItems.DelRemovedKey(key);
    }

    method RemoveFromTree() returns (ops: seq<TreeOp<V>>)
      requires Valid()
      modifies this`tree
      ensures ops == RemoveOps(finalityItems.removedKeys)
      ensures tree == ApplyOps(old(tree), ops)
    {
      ops := [];
      ghost var ks := finalityItems.removedKeys;
      for i := 0 to |finalityItems.removedKeys|
        invariant ops == RemoveOps(ks[..i])
        invariant tree == ApplyOps(old(tree), ops)
      {
        ApplyOpsConcat(old(tree), ops, [TreeRemove(ks[i])]);
        assert RemoveOps(ks[..i + 1]) == ops + [TreeRemove(ks[i])];
        ops := ops + [TreeRemove(finalityItems.removedKeys[i])];
        tree := tree - {finalityItems.removedKeys[i]};
      }
      assert ks[..|ks|] == ks;
    }

    method UpdateTree(keys: seq<Key>) returns (ops: seq<TreeOp<V>>)
      requires Valid()
      requires forall k | k in keys :: k in finalityItems.updatedItems
      modifies this`tree
      ensures ops == SetOps(keys, finalityItems.updatedItems)
      ensures tree == ApplyOps(old(tree), ops)
    {
      ops := [];
      ghost var m := finalityItems.updatedItems;
      for i := 0 to |keys|
        invariant ops == SetOps(keys[..i], m)
        invariant tree == ApplyOps(old(tree), ops)
      {
        var item := finalityItems.updatedItems[keys[i]];
        ApplyOpsConcat(old(tree), ops, [TreeSet(item.key, item)]);
        assert SetOps(keys[..i + 1], m) == ops + [TreeSet(item.key, item)];
        ops := ops + [TreeSet(item.key, item)];
        tree := tree[item.key := item];
      }
      assert keys[..|keys|] == keys;
    }

    /** The operations handed to the tree stand for its root hash, which depends on their order. */
    method Commit() returns (ops: seq<TreeOp<V>>, v: nat)
      requires Valid()
      modifies this, cachedItems, finalityItems
      ensures View() == CommitState(old(View()))
      ensures ops == CommitOps(old(finalityItems.View())) && v == version
    {
      var removes := RemoveFromTree();
      var keys := SortedUpdatedKeys();
      var sets := UpdateTree(keys);
      ops := removes + sets;
      ApplyOpsConcat(old(tree), removes, sets);
      version := version + 1;
      v := version;
      cachedItems.Reset();
      finalityItems.Refresh();
    }

    /** The keys are collected in an arbitrary order, as Go iterates over a map. */
    method SortedUpdatedKeys() returns (keys: seq<Key>)
      ensures keys == SortedKeys(finalityItems.updatedItems.Keys)
    {
      keys := [];
      var todo := finalityItems.updatedItems.Keys;
      while todo != {}
        invariant Enumerates(keys, finalityItems.updatedItems.Keys - todo)
        invariant todo <= finalityItems.updatedItems.Keys
        decreases todo
      {
        var k :| k in todo;
        keys := keys + [k];
        todo := todo - {k};
      }
      assert finalityItems.updatedItems.Keys - {} == finalityItems.updatedItems.Keys;
      IterationOrderIrrelevant(keys, finalityItems.updatedItems.Keys);
      keys := Sort(KeyLess, keys);
    }
  }
}
