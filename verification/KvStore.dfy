/** The ordered key-value store: put, get, delete and partial update refine a finite map; cursors walk it in order. */
module KvStore {
  import opened Bytes
  import opened Keys
  import opened OrderedTree

  type Value = seq<Byte>

  const BLOCK: nat := 4096

  function Fill(b: Byte, n: nat): Value { seq(n, _ => b) }

  /** The map a sorted order of entries stands for. */
  function MapOf<V>(es: seq<Entry<V>>): map<Key, V> {
    if es == [] then map[] else MapOf(es[..|es| - 1])[es[|es| - 1].0 := es[|es| - 1].1]
  }

  ghost predicate HasKey<V>(es: seq<Entry<V>>, k: Key) {
    exists i :: 0 <= i < |es| && es[i].0 == k
  }

  /** `m` has exactly the bindings listed in `es`. */
  ghost predicate Lists<V>(es: seq<Entry<V>>, m: map<Key, V>) {
    && (forall i :: 0 <= i < |es| ==> es[i].0 in m && m[es[i].0] == es[i].1)
    && (forall k :: k in m ==> HasKey(es, k))
  }

  lemma ListsSnoc<V>(es: seq<Entry<V>>, e: Entry<V>, m: map<Key, V>)
    requires Lists(es, m) && !HasKey(es, e.0)
    ensures Lists(es + [e], m[e.0 := e.1])
  {
    var es', m' := es + [e], m[e.0 := e.1];
    forall i | 0 <= i < |es|
      ensures es'[i].0 in m' && m'[es'[i].0] == es'[i].1
    {
      assert es'[i] == es[i];
    }
    forall k | k in m'
      ensures HasKey(es', k)
    {
      if k == e.0 {
        assert es'[|es|].0 == k;
      } else {
        assert HasKey(es, k);
        var i :| 0 <= i < |es| && es[i].0 == k;
        assert es'[i].0 == k;
      }
    }
  }

  lemma {:induction false} MapOfLists<V>(es: seq<Entry<V>>)
    requires Sorted(es)
    ensures Lists(es, MapOf(es))
  {
    hide KeyCmp, Lists;
    if es == [] {
      NothingListed<V>();
    } else {
      var front, e := es[..|es| - 1], es[|es| - 1];
      MapOfLists(front);
      assert !HasKey(front, e.0) by {
        forall i | 0 <= i < |front|
          ensures front[i].0 != e.0
        {
          KeyCmpTotal(es[i].0, e.0);
        }
      }
      ListsSnoc(front, e, MapOf(front));
      assert front + [e] == es;
    }
  }

  lemma NothingListed<V>()
    ensures Lists<V>([], map[])
  {}

  lemma ListedOnce<V>(es: seq<Entry<V>>, m: map<Key, V>)
    requires Sorted(es) && Lists(es, m)
    ensures MapOf(es) == m
  {
    hide MapOf, KeyCmp;
    MapOfLists(es);
    forall k | k in MapOf(es)
      ensures k in m
    {
      assert HasKey(es, k);
    }
    forall k | k in m
      ensures k in MapOf(es) && m[k] == MapOf(es)[k]
    {
      assert HasKey(es, k);
    }
  }

  /** A key that has a place between two neighbours is not in the order. */
  lemma AbsentKey<V>(es: seq<Entry<V>>, key: Key, at: nat)
    requires Sorted(es) && Between(es, key, at, at)
    ensures key !in MapOf(es) && !HasKey(es, key)
  {
    hide KeyCmp, MapOf;
    MapOfLists(es);
    if HasKey(es, key) {
      var i :| 0 <= i < |es| && es[i].0 == key;
      KeyCmpTotal(key, es[i].0);
    }
  }

  function Inserted<V>(es: seq<Entry<V>>, key: Key, val: V, at: nat): seq<Entry<V>>
    requires at <= |es|
  {
    es[..at] + [(key, val)] + es[at..]
  }

  lemma InsertedSorted<V>(es: seq<Entry<V>>, key: Key, val: V, at: nat)
    requires Sorted(es) && Between(es, key, at, at)
    ensures Sorted(Inserted(es, key, val, at))
  {
    hide KeyCmp;
    var es' := Inserted(es, key, val, at);
    forall i, j | 0 <= i < j < |es'|
      ensures KeyCmp(es'[i].0, es'[j].0) < 0
    {
      if j == at {
        KeyCmpTotal(es[i].0, key);
      } else if i != at {
        assert es'[i] == es[if i < at then i else i - 1] && es'[j] == es[if j < at then j else j - 1];
      }
    }
  }

  lemma InsertedLists<V>(es: seq<Entry<V>>, key: Key, val: V, at: nat, m: map<Key, V>)
    requires at <= |es| && Lists(es, m) && !HasKey(es, key)
    ensures Lists(Inserted(es, key, val, at), m[key := val])
  {
    var es', m' := Inserted(es, key, val, at), m[key := val];
    assert es'[at] == (key, val);
    forall i | 0 <= i < |es'| && i != at
      ensures es'[i].0 in m' && m'[es'[i].0] == es'[i].1
    {
      assert es'[i] == es[if i < at then i else i - 1];
    }
    forall k | k in m'
      ensures HasKey(es', k)
    {
      if k != key {
        assert HasKey(es, k);
        var i :| 0 <= i < |es| && es[i].0 == k;
        assert es'[if i < at then i else i + 1].0 == k;
      }
    }
  }

  /** Inserting a new key where it belongs keeps the order and adds one binding. */
  lemma InsertedOrder<V>(es: seq<Entry<V>>, key: Key, val: V, at: nat)
    requires Sorted(es) && Between(es, key, at, at)
    ensures Sorted(Inserted(es, key, val, at)) && MapOf(Inserted(es, key, val, at)) == MapOf(es)[key := val]
  {
    PlaceInRange(es, key, at);
    hide *;
    InsertedSorted(es, key, val, at);
    AbsentKey(es, key, at);
    MapOfLists(es);
    InsertedLists(es, key, val, at, MapOf(es));
    ListedOnce(Inserted(es, key, val, at), MapOf(es)[key := val]);
  }

  lemma PlaceInRange<V>(es: seq<Entry<V>>, key: Key, at: nat)
    requires Between(es, key, at, at)
    ensures at <= |es|
  {}

  function Removed<V>(es: seq<Entry<V>>, at: nat): seq<Entry<V>>
    requires at < |es|
  {
    es[..at] + es[at + 1..]
  }

  lemma RemovedSorted<V>(es: seq<Entry<V>>, at: nat)
    requires Sorted(es) && at < |es|
    ensures Sorted(Removed(es, at)) && !HasKey(Removed(es, at), es[at].0)
  {
    hide KeyCmp;
    var es' := Removed(es, at);
    assert forall i :: 0 <= i < |es'| ==> es'[i] == es[if i < at then i else i + 1];
    forall i | 0 <= i < |es'|
      ensures es'[i].0 != es[at].0
    {
      KeyCmpTotal(es[if i < at then i else at].0, es[if i < at then at else i + 1].0);
    }
  }

  lemma RemovedLists<V>(es: seq<Entry<V>>, at: nat, m: map<Key, V>)
    requires at < |es| && Lists(es, m) && !HasKey(Removed(es, at), es[at].0)
    ensures Lists(Removed(es, at), m - {es[at].0})
  {
    var es', m' := Removed(es, at), m - {es[at].0};
    forall i | 0 <= i < |es'|
      ensures es'[i].0 in m' && m'[es'[i].0] == es'[i].1
    {
      assert es'[i] == es[if i < at then i else i + 1];
    }
    forall k | k in m'
      ensures HasKey(es', k)
    {
      assert HasKey(es, k);
      var i :| 0 <= i < |es| && es[i].0 == k;
      assert es'[if i < at then i else i - 1].0 == k;
    }
  }

  lemma RemovedOrder<V>(es: seq<Entry<V>>, at: nat)
    requires Sorted(es) && at < |es|
    ensures Sorted(Removed(es, at)) && MapOf(Removed(es, at)) == MapOf(es) - {es[at].0}
  {
    hide *;
    RemovedSorted(es, at);
    MapOfLists(es);
    RemovedLists(es, at, MapOf(es));
    ListedOnce(Removed(es, at), MapOf(es) - {es[at].0});
  }

  function Replaced<V>(es: seq<Entry<V>>, at: nat, val: V): seq<Entry<V>>
    requires at < |es|
  {
    es[at := (es[at].0, val)]
  }

  lemma ReplacedLists<V>(es: seq<Entry<V>>, at: nat, val: V, m: map<Key, V>)
    requires at < |es| && Lists(es, m) && !HasKey(Removed(es, at), es[at].0)
    ensures Lists(Replaced(es, at, val), m[es[at].0 := val])
  {
    var es', m' := Replaced(es, at, val), m[es[at].0 := val];
    forall i | 0 <= i < |es'| && i != at
      ensures es'[i].0 in m' && m'[es'[i].0] == es'[i].1
    {
      assert es[i] == Removed(es, at)[if i < at then i else i - 1];
    }
    forall k | k in m'
      ensures HasKey(es', k)
    {
      if k == es[at].0 {
        assert es'[at].0 == k;
      } else {
        assert HasKey(es, k);
        var i :| 0 <= i < |es| && es[i].0 == k;
        assert es'[i].0 == k;
      }
    }
  }

  lemma ReplacedOrder<V>(es: seq<Entry<V>>, at: nat, val: V)
    requires Sorted(es) && at < |es|
    ensures Sorted(Replaced(es, at, val)) && MapOf(Replaced(es, at, val)) == MapOf(es)[es[at].0 := val]
  {
    assert Sorted(Replaced(es, at, val)) by { hide KeyCmp; }
    hide *;
    RemovedSorted(es, at);
    MapOfLists(es);
    ReplacedLists(es, at, val, MapOf(es));
    ListedOnce(Replaced(es, at, val), MapOf(es)[es[at].0 := val]);
  }

  /** A partial update: over an old value the named bytes change; over nothing the rest of the block is zero. */
  function Patched(was: Option<Value>, page: Value, off: nat, len: nat): Value
    requires off + len <= |page|
    requires was.None? ==> off + len <= BLOCK
    requires was.Some? ==> off + len <= |was.value|
  {
    match was
    case Some(v) => v[..off] + page[off..off + len] + v[off + len..]
    case None => Fill(0, off) + page[off..off + len] + Fill(0, BLOCK - off - len)
  }

  /** Byte by byte: the named extent comes from the page, the rest is what it was. */
  lemma PatchedBytes(was: Option<Value>, page: Value, off: nat, len: nat, i: nat)
    requires off + len <= |page|
    requires if was.None? then off + len <= BLOCK else off + len <= |was.value|
    requires i < if was.None? then BLOCK else |was.value|
    ensures |Patched(was, page, off, len)| == if was.None? then BLOCK else |was.value|
    ensures Patched(was, page, off, len)[i] ==
            if off <= i < off + len then page[i] else if was.None? then 0 else was.value[i]
  {}

  function Lookup<V>(m: map<Key, V>, key: Key): Option<V> { if key in m then Some(m[key]) else None }

  class Db {
    var kv: Tree<Value>

    ghost predicate Valid()
      reads this
    {
      Sorted(InOrder(kv))
    }

    ghost function Contents(): map<Key, Value>
      reads this
    {
      MapOf(InOrder(kv))
    }

    constructor ()
      ensures Valid() && Contents() == map[]
    {
      kv := Leaf;
    }

    /** DB_NOTFOUND, or the size of the value and its first `want` bytes. */
    method Get(key: Key, want: nat) returns (size: Option<nat>, data: Value)
      requires Valid()
      requires key in Contents() ==> want <= |Contents()[key]|
      ensures size == if key in Contents() then Some(|Contents()[key]|) else None
      ensures key in Contents() ==> data == Contents()[key][..want]
    {
      MapOfLists(InOrder(kv));
      var found, at := Find(kv, key);
      if !found {
        AbsentKey(InOrder(kv), key, at);
        return None, [];
      }
      var val := InOrder(kv)[at].1;
      return Some(|val|), val[..want];
    }

    method Put(key: Key, data: Value)
      requires Valid()
      modifies this
      ensures Valid() && Contents() == old(Contents())[key := data]
    {
      var found, at := Find(kv, key);
      if found {
        ReplacedOrder(InOrder(kv), at, data);
        SetValSets(kv, at, data);
        kv := SetVal(kv, at, data);
        return;
      }
      InsertNode(key, data, at);
    }

    /** A new node for a key that is not in the tree. */
    method InsertNode(key: Key, data: Value, ghost at: nat)
      requires Valid() && Between(InOrder(kv), key, at, at)
      modifies this
      ensures Valid() && Contents() == old(Contents())[key := data]
    {
      ghost var es := InOrder(kv);
      AbsentKey(es, key, at);
      var ok, tree, place := Insert(kv, key, data);
      if ok {
        InsertedOrder(es, key, data, place);
        kv := tree;
      } else {
        MapOfLists(es);
        assert false;
      }
    }

    method Del(key: Key) returns (found: bool)
      requires Valid()
      modifies this
      ensures Valid() && found == (key in old(Contents())) && Contents() == old(Contents()) - {key}
    {
      ghost var es := InOrder(kv);
      MapOfLists(es);
      var hit, at := Find(kv, key);
      found := hit;
      if found {
        RemovedOrder(es, at);
        kv := Erase(kv, at);
      } else {
        AbsentKey(es, key, at);
        assert MapOf(es) - {key} == MapOf(es);
      }
    }

    /** Writes bytes off..off+len of `page` into the value, creating a zero block if there is none. */
    method Update(key: Key, page: Value, off: nat, len: nat)
      requires Valid() && |page| == BLOCK && off + len <= BLOCK
      requires key in Contents() ==> off + len <= |Contents()[key]|
      modifies this
      ensures Valid() && Contents() == old(Contents())[key := Patched(Lookup(old(Contents()), key), page, off, len)]
    {
      ghost var es := InOrder(kv);
      MapOfLists(es);
      var found, at := Find(kv, key);
      if found {
        var v := InOrder(kv)[at].1;
        var patched := v[..off] + page[off..off + len] + v[off + len..];
        ReplacedOrder(es, at, patched);
        SetValSets(kv, at, patched);
        kv := SetVal(kv, at, patched);
      } else {
        AbsentKey(es, key, at);
        var block := Fill(0, off) + page[off..off + len] + Fill(0, BLOCK - off - len);
        InsertNode(key, block, at);
      }
    }
  }

  // Cursors.

  /** A cursor over a store that does not change while it is open. */
  class Cursor {
    const db: Db
    var node: Option<nat>
    var right: Option<Key>

    constructor (d: Db)
      ensures db == d && node == None && right == None
    {
      db := d;
      node := None;
      right := None;
    }

    /** DB_SET_RANGE: to the first key not below the probe. */
    method SetRange(key: Key) returns (found: bool)
      requires db.Valid()
      modifies this
      ensures LowerBound(InOrder(db.kv), key, if found && node.Some? then node.value else |InOrder(db.kv)|)
      ensures found ==> node.Some? && node.value < |InOrder(db.kv)|
      ensures !found ==> node == old(node)
      ensures right == old(right)
    {
      var hit, at := FindGe(db.kv, key);
      found := hit;
      if found {
        node := Some(at);
      }
    }

    /** DB_NEXT: one step in key order, up to the right bound. */
    method Next() returns (found: bool)
      requires db.Valid() && node.Some? && node.value < |InOrder(db.kv)|
      modifies this
      ensures right == old(right)
      ensures var at := old(node).value + 1;
              var es := InOrder(db.kv);
              && found == (at < |es| && (right.Some? ==> KeyCmp(es[at].0, right.value) <= 0))
              && node == if found then Some(at) else None
    {
      var at := node.value + 1;
      var es := InOrder(db.kv);
      if at == |es| {
        node := None;
        return false;
      }
      if right.Some? && KeyCmp(es[at].0, right.value) > 0 {
        node := None;
        return false;
      }
      node := Some(at);
      return true;
    }
  }

  /** SET_RANGE, then NEXT to the end: every entry not below the probe, once, in order. */
  method ScanFrom(db: Db, key: Key) returns (out: seq<Entry<Value>>)
    requires db.Valid()
    ensures exists lo: nat :: LowerBound(InOrder(db.kv), key, lo) && out == InOrder(db.kv)[lo..]
  {
    hide KeyCmp, InOrder, LowerBound, Sorted;
    ghost var es := InOrder(db.kv);
    var cursor := new Cursor(db);
    out := [];
    var more := cursor.SetRange(key);
    ghost var lo := if more then cursor.node.value else |es|;
    BoundInRange(es, key, lo);
    while more
      invariant cursor.right == None && es == InOrder(db.kv) && db.Valid()
      invariant lo <= |es|
      invariant more ==> cursor.node.Some? && lo <= cursor.node.value < |es| && out == es[lo..cursor.node.value]
      invariant !more ==> out == es[lo..]
      decreases more, |es| - if cursor.node.Some? then cursor.node.value else 0
    {
      var at := cursor.node.value;
      out := out + [InOrder(db.kv)[at]];
      assert es[lo..at + 1] == es[lo..at] + [es[at]];
      more := cursor.Next();
    }
  }

  lemma BoundInRange<V>(es: seq<Entry<V>>, key: Key, at: nat)
    requires LowerBound(es, key, at)
    ensures at <= |es|
  {}
}
