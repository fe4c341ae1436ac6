/** A map in an array of fixed length (kernel/usb/arraymap.hpp). */
module ArrayMaps {
  import opened Wrappers

  type Table<K, V> = seq<(Option<K>, V)>

  /** The first entry with a key, or none. */
  function Find<K(==), V>(t: Table<K, V>, key: K): (i: nat)
    ensures i <= |t| && (i < |t| ==> t[i].0 == Some(key))
    ensures forall j :: 0 <= j < i ==> t[j].0 != Some(key)
  {
    if t == [] || t[0].0 == Some(key) then 0 else 1 + Find(t[1..], key)
  }

  /** The first free entry, or none. */
  function Free<K, V>(t: Table<K, V>): (i: nat)
    ensures i <= |t| && (i < |t| ==> t[i].0.None?)
    ensures forall j :: 0 <= j < i ==> t[j].0.Some?
  {
    if t == [] || t[0].0.None? then 0 else 1 + Free(t[1..])
  }

  function Got<K(==), V>(t: Table<K, V>, key: K): Option<V> {
    var i := Find(t, key);
    if i < |t| then Some(t[i].1) else None
  }

  /** A full table is left as it is. */
  function WithPut<K(==), V>(t: Table<K, V>, key: K, value: V): Table<K, V> {
    var i := Free(t);
    if i < |t| then t[i := (Some(key), value)] else t
  }

  function WithDelete<K(==), V>(t: Table<K, V>, key: K): Table<K, V> {
    var i := Find(t, key);
    if i < |t| then t[i := (None, t[i].1)] else t
  }

  /** No key occurs twice. */
  ghost predicate Unique<K(!new), V>(t: Table<K, V>) {
    forall i, j :: 0 <= i < j < |t| && t[i].0.Some? ==> t[i].0 != t[j].0
  }

  ghost function Keys<K(!new), V>(t: Table<K, V>): (r: set<K>)
    ensures forall k :: k in r <==> exists i :: 0 <= i < |t| && t[i].0 == Some(k)
  {
    set i | 0 <= i < |t| && t[i].0.Some? :: t[i].0.value
  }

  lemma {:induction false} KeyCount<K(!new), V>(t: Table<K, V>)
    requires Unique(t)
    ensures |Keys(t)| <= |t| && (|Keys(t)| == |t| <==> Free(t) == |t|)
  {
    if t != [] {
      var last := |t| - 1;
      KeyCount(t[..last]);
      FreeOfPrefix(t);
      if t[last].0.Some? {
        assert t[last].0.value !in Keys(t[..last]);
        assert Keys(t) == Keys(t[..last]) + {t[last].0.value} by { KeysOfLast(t); }
      } else {
        assert Keys(t) == Keys(t[..last]) by { KeysOfLast(t); }
      }
    }
  }

  lemma FreeUnlessFull<K, V>(t: Table<K, V>)
    ensures Free(t) == |t| <==> forall j :: 0 <= j < |t| ==> t[j].0.Some?
  {
  }

  lemma FreeOfPrefix<K, V>(t: Table<K, V>)
    requires t != []
    ensures Free(t) == |t| <==> Free(t[..|t| - 1]) == |t| - 1 && t[|t| - 1].0.Some?
  {
    var p := t[..|t| - 1];
    assert t == p + [t[|t| - 1]];
    FreeUnlessFull(t);
    FreeUnlessFull(p);
    hide Free;
  }

  lemma KeysOfLast<K(!new), V>(t: Table<K, V>)
    requires t != []
    ensures Keys(t) == Keys(t[..|t| - 1]) + (if t[|t| - 1].0.Some? then {t[|t| - 1].0.value} else {})
  {
    var last := |t| - 1;
    var p := t[..last];
    forall k
      ensures k in Keys(t) <==> k in Keys(p) || (t[last].0.Some? && k == t[last].0.value)
    {
      if k in Keys(p) {
        var i :| 0 <= i < last && p[i].0 == Some(k);
        assert t[i].0 == Some(k);
      }
      if k in Keys(t) {
        var i :| 0 <= i <= last && t[i].0 == Some(k);
        if i < last { assert p[i].0 == Some(k); }
      }
    }
  }

  /** A lookup finds exactly the keys there are. */
  lemma GotIff<K(!new), V>(t: Table<K, V>, key: K)
    ensures Got(t, key).Some? <==> key in Keys(t)
  {
  }

  lemma GotAt<K(!new), V>(t: Table<K, V>, i: nat, key: K)
    requires Unique(t) && i < |t| && t[i].0 == Some(key)
    ensures Got(t, key) == Some(t[i].1)
  {
    assert Find(t, key) == i;
  }

  lemma PutLookup<K(!new), V>(t: Table<K, V>, key: K, value: V, k: K)
    requires Unique(t) && key !in Keys(t) && Free(t) < |t| && Unique(WithPut(t, key, value))
    ensures Got(WithPut(t, key, value), k) == if k == key then Some(value) else Got(t, k)
  {
    var r, f := WithPut(t, key, value), Free(t);
    hide Unique, Got;
    if k == key {
      GotAt(r, f, key);
    } else {
      var i := Find(t, k);
      if i < |t| {
        assert i != f && r[i] == t[i];
        GotAt(t, i, k);
        GotAt(r, i, k);
      } else {
        assert forall j :: 0 <= j < |r| ==> r[j].0 != Some(k);
        GotNone(t, k);
        GotNone(r, k);
      }
    }
  }

  lemma GotNone<K(!new), V>(t: Table<K, V>, key: K)
    requires forall j :: 0 <= j < |t| ==> t[j].0 != Some(key)
    ensures Got(t, key) == None
  {
  }

  lemma PutKeys<K(!new), V>(t: Table<K, V>, key: K, value: V)
    requires Unique(t) && key !in Keys(t) && Free(t) < |t|
    ensures Unique(WithPut(t, key, value)) && Keys(WithPut(t, key, value)) == Keys(t) + {key}
  {
    var r, f := WithPut(t, key, value), Free(t);
    assert forall j :: 0 <= j < |t| ==> t[j].0 != Some(key);
    assert forall j :: 0 <= j < |t| && j != f ==> r[j] == t[j];
    assert r[f].0 == Some(key);
    forall k
      ensures k in Keys(r) <==> k in Keys(t) || k == key
    {
      if k in Keys(t) {
        var i :| 0 <= i < |t| && t[i].0 == Some(k);
        assert r[i].0 == Some(k);
      }
    }
  }

  /** While there is a free entry and the key is new, the table is a map. */
  lemma PutIsUpdate<K(!new), V>(t: Table<K, V>, key: K, value: V)
    requires Unique(t) && key !in Keys(t) && Free(t) < |t|
    ensures
      var r := WithPut(t, key, value);
      && Unique(r) && |r| == |t| && Keys(r) == Keys(t) + {key} && Got(r, key) == Some(value)
      && forall k :: k != key ==> Got(r, k) == Got(t, k)
  {
    PutKeys(t, key, value);
    PutLookup(t, key, value, key);
    forall k | k != key
      ensures Got(WithPut(t, key, value), k) == Got(t, k)
    {
      PutLookup(t, key, value, k);
    }
    hide Unique, Keys, Got;
  }

  lemma DeleteKeys<K(!new), V>(t: Table<K, V>, key: K)
    requires Unique(t)
    ensures Unique(WithDelete(t, key)) && Keys(WithDelete(t, key)) == Keys(t) - {key}
  {
    var r, f := WithDelete(t, key), Find(t, key);
    assert forall j :: 0 <= j < |t| && j != f ==> r[j] == t[j];
    assert forall j :: 0 <= j < |t| && j != f ==> t[j].0 != Some(key);
    forall k
      ensures k in Keys(r) <==> k in Keys(t) && k != key
    {
      if k in Keys(t) && k != key {
        var i :| 0 <= i < |t| && t[i].0 == Some(k);
        assert r[i].0 == Some(k);
      }
    }
  }

  lemma DeleteLookup<K(!new), V>(t: Table<K, V>, key: K, k: K)
    requires Unique(t) && Unique(WithDelete(t, key))
    ensures Got(WithDelete(t, key), k) == if k == key then None else Got(t, k)
  {
    var r, f := WithDelete(t, key), Find(t, key);
    assert forall j :: 0 <= j < |t| && j != f ==> r[j] == t[j] && t[j].0 != Some(key);
    hide Unique, Got, WithDelete;
    if k == key {
      GotNone(r, k);
    } else {
      var i := Find(t, k);
      if i < |t| {
        assert r[i] == t[i];
        GotAt(t, i, k);
        GotAt(r, i, k);
      } else {
        GotNone(t, k);
        GotNone(r, k);
      }
    }
  }

  /** Without double keys the table is a map. */
  lemma DeleteIsRemoval<K(!new), V>(t: Table<K, V>, key: K)
    requires Unique(t)
    ensures
      var r := WithDelete(t, key);
      && Unique(r) && |r| == |t| && Keys(r) == Keys(t) - {key} && Got(r, key) == None
      && forall k :: k != key ==> Got(r, k) == Got(t, k)
  {
    DeleteKeys(t, key);
    DeleteLookup(t, key, key);
    forall k | k != key
      ensures Got(WithDelete(t, key), k) == Got(t, k)
    {
      DeleteLookup(t, key, k);
    }
    hide Unique, Keys, Got;
  }

  class ArrayMap<K(==), V> {
    const table: array<(Option<K>, V)>

    constructor (n: nat, unset: V)
      ensures fresh(table) && table[..] == seq(n, _ => (None, unset))
    {
      table := new (Option<K>, V)[n](_ => (None, unset));
    }

    method Get(key: K) returns (value: Option<V>)
      ensures value == Got(table[..], key)
    {
      ghost var t := table[..];
      for i := 0 to table.Length
        invariant forall j :: 0 <= j < i ==> t[j].0 != Some(key)
      {
        if table[i].0 == Some(key) {
          return Some(table[i].1);
        }
      }
      value := None;
    }

    method Put(key: K, value: V)
      modifies table
      ensures table[..] == WithPut(old(table[..]), key, value)
    {
      ghost var t := table[..];
      for i := 0 to table.Length
        invariant table[..] == t
        invariant forall j :: 0 <= j < i ==> t[j].0.Some?
      {
        if table[i].0.None? {
          assert Free(t) == i;
          table[i] := (Some(key), value);
          return;
        }
      }
    }

    method Delete(key: K)
      modifies table
      ensures table[..] == WithDelete(old(table[..]), key)
    {
      ghost var t := table[..];
      for i := 0 to table.Length
        invariant table[..] == t
        invariant forall j :: 0 <= j < i ==> t[j].0 != Some(key)
      {
        if table[i].0 == Some(key) {
          assert Find(t, key) == i;
          table[i] := (None, table[i].1);
          return;
        }
      }
    }
  }
}
