/**
 The meaning of one layer of a ledger: a committed map, the map that a commit would
 store, and the keys deleted since the last commit. The Ledger module proves that
 the cached ledger of the program answers every call as this machine does; the
 controllers are modelled on top of it.
 */
module Overlays {
  import opened Prelude

  function Lookup<K, V>(m: map<K, V>, k: K): Option<V>
  {
    if k in m then Some(m[k]) else None
  }

  /** m with the entry of k, present or absent, taken from another map. */
  function Restore<K, V>(m: map<K, V>, from: map<K, V>, k: K): map<K, V>
  {
    if k in from then m[k := from[k]] else m - {k}
  }

  datatype Overlay<K(==), V> = Overlay(committed: map<K, V>, working: map<K, V>, dead: set<K>) {

    /** A key deleted since the last commit reads as absent, even when it has been set again. */
    function Get(k: K): Option<V>
    {
      if k in dead then None else Lookup(working, k)
    }

    function Set(k: K, v: V): Overlay<K, V>
    {
      this.(working := working[k := v])
    }

    function CancelSet(k: K): Overlay<K, V>
    {
      this.(working := if k in dead then working - {k} else Restore(working, committed, k))
    }

    /** Deleting what reads as absent fails and changes nothing. */
    function Del(k: K): Overlay<K, V>
    {
      if Get(k).None? then this else Overlay(committed, working - {k}, dead + {k})
    }

    function CancelDel(k: K): Overlay<K, V>
    {
      if k !in dead then this
      else Overlay(committed, if k in working then working else Restore(working, committed, k), dead - {k})
    }

    function Commit(): Overlay<K, V>
    {
      Overlay(working, working, {})
    }
  }

  function Fresh<K, V>(m: map<K, V>): Overlay<K, V>
  {
    Overlay(m, m, {})
  }

  /** A read gives the value that a commit would store, except exactly for a key deleted and set again. */
  lemma GetIsPendingValue<K, V>(o: Overlay<K, V>, k: K)
    ensures o.Get(k) == Lookup(o.Commit().committed, k) <==> !(k in o.dead && k in o.working)
  {
  }

  /** Cancelling a set takes it back exactly when nothing was pending for the key before it. */
  lemma CancelSetUndoesExactly<K, V>(o: Overlay<K, V>, k: K, v: V)
    ensures o.Set(k, v).CancelSet(k) == o <==>
            Lookup(o.working, k) == if k in o.dead then None else Lookup(o.committed, k)
  {
    var r := o.Set(k, v).CancelSet(k);
    assert Lookup(r.working, k) == if k in o.dead then None else Lookup(o.committed, k);
    if Lookup(r.working, k) == Lookup(o.working, k) { assert r.working == o.working; }
  }

  /** Cancelling the deletion of a key that reads as present takes it back exactly when its committed value was pending. */
  lemma CancelDelUndoesExactly<K, V>(o: Overlay<K, V>, k: K)
    requires o.Get(k).Some?
    ensures o.Del(k).CancelDel(k) == o <==> Lookup(o.committed, k) == o.Get(k)
  {
    var r := o.Del(k).CancelDel(k);
    assert Lookup(r.working, k) == Lookup(o.committed, k);
    assert r.dead == o.dead;
    if Lookup(o.committed, k) == o.Get(k) { assert r.working == o.working; }
  }
}
