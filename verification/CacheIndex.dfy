/**
 The metadata cache: items on hash chains, each directory with a tree of the cached items
 filed under it.  Items are cells of a pool, and chains, trees and parent links hold cell
 numbers, as the source holds pointers.
 */
module CacheIndex {
  import opened Bytes
  import opened Keys
  import opened OrderedTree
  import opened KvStore
  import opened CacheModel

  const BUCKETS: nat := 0x10_0000

  datatype Item = Item(
    key: Key,
    value: Value,
    isWeakDel: bool,
    isEvicted: bool,
    fp: nat,
    dcache: Option<Tree<nat>>,
    parent: Option<nat>)

  type Pool = map<nat, Item>

  /** The two seeded hash functions; any functions will do. */
  datatype Hashing = Hashing(hash: Key -> nat, fingerprint: Key -> nat)

  function Bucket(h: Hashing, key: Key): nat { h.hash(key) % BUCKETS }

  /** `at` locates every pooled item by its key. */
  ghost predicate Keyed(pool: Pool, at: map<Key, nat>) {
    && (forall k :: k in at ==> at[k] in pool && pool[at[k]].key == k)
    && (forall id :: id in pool ==> pool[id].key in at && at[pool[id].key] == id)
  }

  /** Fingerprints are right, and the two deletion marks go together. */
  ghost predicate Marked(h: Hashing, pool: Pool) {
    forall id :: id in pool ==> pool[id].fp == h.fingerprint(pool[id].key) && pool[id].isWeakDel == pool[id].isEvicted
  }

  /** A pooled item is on the chain of its bucket, once; chains hold nothing else. */
  ghost predicate Chained(h: Hashing, pool: Pool, chains: seq<seq<nat>>) {
    && |chains| == BUCKETS
    && (forall b, i :: 0 <= b < BUCKETS && 0 <= i < |chains[b]| ==>
          chains[b][i] in pool && Bucket(h, pool[chains[b][i]].key) == b)
    && (forall b, i, j :: 0 <= b < BUCKETS && 0 <= i < j < |chains[b]| ==> chains[b][i] != chains[b][j])
    && (forall id :: id in pool ==> id in chains[Bucket(h, pool[id].key)])
  }

  /** The items filed under a directory. */
  ghost function Kids(pool: Pool, at: map<Key, nat>, dir: nat): map<Key, nat>
    requires Keyed(pool, at)
  {
    map k | k in at && pool[at[k]].parent == Some(dir) :: at[k]
  }

  /** A directory's tree lists its children in key order. */
  ghost predicate TreeOk(pool: Pool, at: map<Key, nat>, d: nat)
    requires Keyed(pool, at) && d in pool && pool[d].dcache.Some?
  {
    var es := InOrder(pool[d].dcache.value);
    Sorted(es) && MapOf(es) == Kids(pool, at, d)
  }

  ghost predicate ParentOk(pool: Pool, id: nat)
    requires id in pool
  {
    var p := pool[id].parent;
    p.Some? ==> p.value in pool && pool[p.value].dcache.Some?
  }

  /** Parents are pooled directories. */
  ghost predicate Rooted(pool: Pool) {
    forall id {:trigger ParentOk(pool, id)} :: id in pool ==> ParentOk(pool, id)
  }

  ghost predicate Filed(pool: Pool, at: map<Key, nat>)
    requires Keyed(pool, at)
  {
    forall d :: d in pool && pool[d].dcache.Some? ==> TreeOk(pool, at, d)
  }

  ghost predicate Inv(h: Hashing, pool: Pool, chains: seq<seq<nat>>, at: map<Key, nat>) {
    Keyed(pool, at) && Marked(h, pool) && Chained(h, pool, chains) && Rooted(pool) && Filed(pool, at)
  }

  /** An item as its callers see it. */
  ghost function MetaOf(pool: Pool, id: nat): Meta
    requires id in pool && ParentOk(pool, id)
  {
    var it := pool[id];
    Meta(it.value, it.isWeakDel, it.dcache.Some?, if it.parent.None? then None else Some(pool[it.parent.value].key))
  }

  ghost function View(pool: Pool, at: map<Key, nat>): Cached
    requires Keyed(pool, at) && Rooted(pool)
  {
    map k | k in at :: MetaOf(pool, at[k])
  }

  // In-place changes of one item.

  ghost predicate SameKeys(pool: Pool, pool': Pool) {
    pool'.Keys == pool.Keys && forall id :: id in pool ==> pool'[id].key == pool[id].key && pool'[id].fp == pool[id].fp
  }

  lemma SameKeysKeep(h: Hashing, pool: Pool, pool': Pool, chains: seq<seq<nat>>, at: map<Key, nat>)
    requires Chained(h, pool, chains) && Keyed(pool, at) && SameKeys(pool, pool')
    ensures Chained(h, pool', chains) && Keyed(pool', at)
  {
    hide Bucket;
  }

  function Touched(pool: Pool, id: nat, v: Value, weak: bool): Pool
    requires id in pool
  {
    pool[id := pool[id].(value := v, isWeakDel := weak, isEvicted := weak)]
  }

  lemma TouchMeta(pool: Pool, id: nat, v: Value, weak: bool, c: nat)
    requires id in pool && c in pool && ParentOk(pool, c)
    ensures ParentOk(Touched(pool, id, v, weak), c)
    ensures MetaOf(Touched(pool, id, v, weak), c) ==
            if c == id then MetaOf(pool, c).(value := v, weak := weak) else MetaOf(pool, c)
  {}

  lemma TouchKeyed(pool: Pool, at: map<Key, nat>, id: nat, v: Value, weak: bool)
    requires Keyed(pool, at) && id in pool
    ensures Touched(pool, id, v, weak).Keys == pool.Keys && Keyed(Touched(pool, id, v, weak), at)
  {}

  lemma TouchView(pool: Pool, at: map<Key, nat>, id: nat, v: Value, weak: bool)
    requires Keyed(pool, at) && Rooted(pool) && id in pool
    ensures var pool', k := Touched(pool, id, v, weak), pool[id].key;
            && Keyed(pool', at) && Rooted(pool')
            && View(pool', at) == View(pool, at)[k := View(pool, at)[k].(value := v, weak := weak)]
  {
    hide MetaOf, Touched, ParentOk;
    var pool', k := Touched(pool, id, v, weak), pool[id].key;
    TouchKeyed(pool, at, id, v, weak);
    forall c | c in pool'
      ensures ParentOk(pool', c)
    {
      TouchMeta(pool, id, v, weak, c);
    }
    forall j | j in at
      ensures View(pool', at)[j] == if j == k then View(pool, at)[k].(value := v, weak := weak) else View(pool, at)[j]
    {
      TouchMeta(pool, id, v, weak, at[j]);
    }
  }

  lemma TouchFiled(pool: Pool, at: map<Key, nat>, id: nat, v: Value, weak: bool)
    requires Keyed(pool, at) && Filed(pool, at) && id in pool
    ensures Keyed(Touched(pool, id, v, weak), at) && Filed(Touched(pool, id, v, weak), at)
  {
    hide InOrder, MapOf, Sorted;
    var pool' := Touched(pool, id, v, weak);
    forall d | d in pool' && pool'[d].dcache.Some?
      ensures TreeOk(pool', at, d)
    {
      assert TreeOk(pool, at, d);
      assert Kids(pool', at, d) == Kids(pool, at, d);
    }
  }

  /** Value and flags may change without touching chains and trees. */
  lemma TouchKeeps(h: Hashing, pool: Pool, chains: seq<seq<nat>>, at: map<Key, nat>, id: nat, v: Value, weak: bool)
    requires Inv(h, pool, chains, at) && id in pool
    ensures Inv(h, Touched(pool, id, v, weak), chains, at)
  {
    hide Chained, Rooted, Filed, Keyed, View;
    SameKeysKeep(h, pool, Touched(pool, id, v, weak), chains, at);
    TouchView(pool, at, id, v, weak);
    TouchFiled(pool, at, id, v, weak);
  }

  lemma BucketInRange(h: Hashing, key: Key)
    ensures Bucket(h, key) < BUCKETS
  {}

  lemma ChainsInRange(h: Hashing, pool: Pool, chains: seq<seq<nat>>)
    requires Chained(h, pool, chains)
    ensures |chains| == BUCKETS
  {}

  /** hash_add at the head of its chain. */
  lemma AddChained(h: Hashing, pool: Pool, chains: seq<seq<nat>>, id: nat, it: Item)
    requires Chained(h, pool, chains) && id !in pool
    ensures var b := Bucket(h, it.key);
            Chained(h, pool[id := it], chains[b := [id] + chains[b]])
  {
    hide Bucket;
    var b := Bucket(h, it.key);
    BucketInRange(h, it.key);
    var pool', chains' := pool[id := it], chains[b := [id] + chains[b]];
    forall c, i | 0 <= c < BUCKETS && 0 <= i < |chains'[c]|
      ensures chains'[c][i] in pool' && Bucket(h, pool'[chains'[c][i]].key) == c
    {
      if c == b && i > 0 {
        assert chains'[c][i] == chains[c][i - 1];
      }
    }
    forall other | other in pool'
      ensures Bucket(h, pool'[other].key) < BUCKETS && other in chains'[Bucket(h, pool'[other].key)]
    {
      BucketInRange(h, pool'[other].key);
      if other == id {
        assert chains'[b][0] == id;
      }
    }
  }

  lemma AddView(pool: Pool, at: map<Key, nat>, id: nat, it: Item)
    requires Keyed(pool, at) && Rooted(pool) && id !in pool && it.key !in at && it.parent.None?
    ensures var pool', at' := pool[id := it], at[it.key := id];
            && Keyed(pool', at') && Rooted(pool')
            && View(pool', at') == View(pool, at)[it.key := Meta(it.value, it.isWeakDel, it.dcache.Some?, None)]
  {
    var pool', at' := pool[id := it], at[it.key := id];
    forall c | c in pool'
      ensures ParentOk(pool', c)
    {
      if c != id {
        assert ParentOk(pool, c);
      }
    }
    forall j | j in at
      ensures View(pool', at')[j] == View(pool, at)[j]
    {
      assert ParentOk(pool, at[j]);
    }
  }

  lemma AddKids(pool: Pool, at: map<Key, nat>, id: nat, it: Item, d: nat)
    requires Keyed(pool, at) && Rooted(pool) && id !in pool && it.key !in at && it.parent.None?
    ensures Keyed(pool[id := it], at[it.key := id])
    ensures Kids(pool[id := it], at[it.key := id], d) == if d == id then map[] else Kids(pool, at, d)
  {
    forall c | c in pool
      ensures pool[c].parent != Some(id)
    {
      assert ParentOk(pool, c);
    }
  }

  /** A new item, filed nowhere yet. */
  lemma AddKeeps(h: Hashing, pool: Pool, chains: seq<seq<nat>>, at: map<Key, nat>, id: nat, it: Item)
    requires Inv(h, pool, chains, at) && id !in pool && it.key !in at
    requires it.fp == h.fingerprint(it.key) && it.isWeakDel == it.isEvicted && it.parent.None?
    requires it.dcache.Some? ==> it.dcache.value == Leaf
    ensures var b := Bucket(h, it.key);
            Inv(h, pool[id := it], chains[b := [id] + chains[b]], at[it.key := id])
  {
    hide InOrder, MapOf, Sorted, Bucket, Chained, Kids, Rooted;
    var pool', at' := pool[id := it], at[it.key := id];
    AddChained(h, pool, chains, id, it);
    AddView(pool, at, id, it);
    forall d | d in pool' && pool'[d].dcache.Some?
      ensures TreeOk(pool', at', d)
    {
      AddKids(pool, at, id, it, d);
      if d == id {
        EmptyTree();
      } else {
        assert TreeOk(pool, at, d);
      }
    }
  }

  lemma EmptyTree()
    ensures Sorted(InOrder<nat>(Leaf)) && MapOf(InOrder<nat>(Leaf)) == map[]
  {}

  /** A child in its directory's tree. */
  function Linked(pool: Pool, id: nat, dir: nat, t: Tree<nat>): Pool
    requires id in pool && dir in pool
  {
    var pool' := pool[dir := pool[dir].(dcache := Some(t))];
    pool'[id := pool'[id].(parent := Some(dir))]
  }

  lemma LinkKids(pool: Pool, at: map<Key, nat>, id: nat, dir: nat, t: Tree<nat>, d: nat)
    requires Keyed(pool, at) && id in pool && dir in pool && pool[id].parent.None?
    ensures Keyed(Linked(pool, id, dir, t), at)
    ensures Kids(Linked(pool, id, dir, t), at, d) ==
            if d == dir then Kids(pool, at, d)[pool[id].key := id] else Kids(pool, at, d)
  {}

  lemma LinkRooted(pool: Pool, id: nat, dir: nat, t: Tree<nat>)
    requires Rooted(pool) && id in pool && dir in pool && pool[dir].dcache.Some?
    ensures Rooted(Linked(pool, id, dir, t))
  {
    forall c | c in pool
      ensures ParentOk(Linked(pool, id, dir, t), c)
    {
      assert ParentOk(pool, c);
    }
  }

  lemma LinkKeyed(pool: Pool, at: map<Key, nat>, id: nat, dir: nat, t: Tree<nat>)
    requires Keyed(pool, at) && id in pool && dir in pool
    ensures Keyed(Linked(pool, id, dir, t), at)
  {}

  lemma LinkMeta(pool: Pool, id: nat, dir: nat, t: Tree<nat>, c: nat)
    requires id in pool && dir in pool && pool[dir].dcache.Some? && c in pool && ParentOk(pool, c)
    ensures c in Linked(pool, id, dir, t) && ParentOk(Linked(pool, id, dir, t), c)
    ensures MetaOf(Linked(pool, id, dir, t), c) ==
            if c == id then MetaOf(pool, c).(parent := Some(pool[dir].key)) else MetaOf(pool, c)
  {}

  lemma LinkView(pool: Pool, at: map<Key, nat>, id: nat, dir: nat, t: Tree<nat>)
    requires Keyed(pool, at) && Rooted(pool) && id in pool && dir in pool && pool[dir].dcache.Some?
    ensures Keyed(Linked(pool, id, dir, t), at) && Rooted(Linked(pool, id, dir, t))
    ensures var k := pool[id].key;
            View(Linked(pool, id, dir, t), at) == View(pool, at)[k := View(pool, at)[k].(parent := Some(pool[dir].key))]
  {
    var pool', k := Linked(pool, id, dir, t), pool[id].key;
    LinkRooted(pool, id, dir, t);
    hide MetaOf, Linked;
    LinkKeyed(pool, at, id, dir, t);
    forall j | j in at
      ensures View(pool', at)[j] == if j == k then View(pool, at)[k].(parent := Some(pool[dir].key)) else View(pool, at)[j]
    {
      assert ParentOk(pool, at[j]);
      LinkMeta(pool, id, dir, t, at[j]);
    }
  }

  lemma LinkFiled(pool: Pool, at: map<Key, nat>, id: nat, dir: nat, t: Tree<nat>)
    requires Keyed(pool, at) && Filed(pool, at) && id in pool && dir in pool && pool[id].parent.None? && pool[dir].dcache.Some?
    requires Sorted(InOrder(t)) && MapOf(InOrder(t)) == MapOf(InOrder(pool[dir].dcache.value))[pool[id].key := id]
    ensures Keyed(Linked(pool, id, dir, t), at) && Filed(Linked(pool, id, dir, t), at)
  {
    hide InOrder, MapOf, Sorted, Kids;
    var pool' := Linked(pool, id, dir, t);
    forall d | d in pool' && pool'[d].dcache.Some?
      ensures TreeOk(pool', at, d)
    {
      assert TreeOk(pool, at, d);
      LinkKids(pool, at, id, dir, t, d);
    }
  }

  lemma LinkKeeps(h: Hashing, pool: Pool, chains: seq<seq<nat>>, at: map<Key, nat>, id: nat, dir: nat, t: Tree<nat>)
    requires Inv(h, pool, chains, at) && id in pool && dir in pool && pool[id].parent.None? && pool[dir].dcache.Some?
    requires Sorted(InOrder(t)) && MapOf(InOrder(t)) == MapOf(InOrder(pool[dir].dcache.value))[pool[id].key := id]
    ensures Inv(h, Linked(pool, id, dir, t), chains, at)
  {
    hide Chained, Rooted, Filed, Keyed, View, InOrder, MapOf, Sorted;
    SameKeysKeep(h, pool, Linked(pool, id, dir, t), chains, at);
    LinkRooted(pool, id, dir, t);
    LinkFiled(pool, at, id, dir, t);
  }

  lemma RemoveChained(h: Hashing, pool: Pool, chains: seq<seq<nat>>, b: nat, i: nat)
    requires Chained(h, pool, chains) && b < BUCKETS && i < |chains[b]|
    ensures Chained(h, pool - {chains[b][i]}, chains[b := chains[b][..i] + chains[b][i + 1..]])
  {
    hide Bucket;
    var id := chains[b][i];
    var pool', chain := pool - {id}, chains[b][..i] + chains[b][i + 1..];
    var chains' := chains[b := chain];
    assert forall j :: 0 <= j < |chain| ==> chain[j] == chains[b][if j < i then j else j + 1];
    forall c, j | 0 <= c < BUCKETS && 0 <= j < |chains'[c]|
      ensures chains'[c][j] in pool' && Bucket(h, pool'[chains'[c][j]].key) == c
    {
      if c == b {
        assert chain[j] == chains[b][if j < i then j else j + 1];
      } else {
        assert Bucket(h, pool[chains[c][j]].key) == c;
      }
    }
    forall other | other in pool'
      ensures Bucket(h, pool'[other].key) < BUCKETS && other in chains'[Bucket(h, pool'[other].key)]
    {
      var c := Bucket(h, pool[other].key);
      BucketInRange(h, pool[other].key);
      var j :| 0 <= j < |chains[c]| && chains[c][j] == other;
      if c == b {
        assert chain[if j < i then j else j - 1] == other;
      }
    }
  }

  /** The item gone, and gone from its parent's tree. */
  function Unfiled(pool: Pool, id: nat, dir: nat, t: Tree<nat>): Pool
    requires dir in pool
  {
    pool[dir := pool[dir].(dcache := Some(t))] - {id}
  }

  lemma RemoveMeta(pool: Pool, id: nat, dir: nat, t: Tree<nat>, c: nat)
    requires dir in pool && pool[dir].dcache.Some? && c in pool && c != id && pool[c].parent != Some(id) && ParentOk(pool, c)
    ensures var pool' := Unfiled(pool, id, dir, t); ParentOk(pool', c) && MetaOf(pool', c) == MetaOf(pool, c)
  {}

  lemma RemoveKeyed(pool: Pool, at: map<Key, nat>, id: nat, dir: nat, t: Tree<nat>)
    requires Keyed(pool, at) && id in pool && dir in pool
    ensures Unfiled(pool, id, dir, t).Keys == pool.Keys - {id} && Keyed(Unfiled(pool, id, dir, t), at - {pool[id].key})
  {}

  lemma RemoveView(pool: Pool, at: map<Key, nat>, id: nat, dir: nat, t: Tree<nat>)
    requires Keyed(pool, at) && Rooted(pool) && id in pool && dir in pool && pool[dir].dcache.Some?
    requires forall other :: other in pool ==> pool[other].parent != Some(id)
    ensures Keyed(Unfiled(pool, id, dir, t), at - {pool[id].key}) && Rooted(Unfiled(pool, id, dir, t))
    ensures View(Unfiled(pool, id, dir, t), at - {pool[id].key}) == View(pool, at) - {pool[id].key}
  {
    hide MetaOf, Unfiled, ParentOk;
    var pool', at' := Unfiled(pool, id, dir, t), at - {pool[id].key};
    RemoveKeyed(pool, at, id, dir, t);
    forall c | c in pool'
      ensures ParentOk(pool', c)
    {
      RemoveMeta(pool, id, dir, t, c);
    }
    forall j | j in at'
      ensures View(pool', at')[j] == View(pool, at)[j]
    {
      RemoveMeta(pool, id, dir, t, at[j]);
    }
  }

  lemma RemoveKids(pool: Pool, at: map<Key, nat>, id: nat, dir: nat, t: Tree<nat>, d: nat)
    requires Keyed(pool, at) && id in pool && pool[id].parent == Some(dir) && dir in pool && dir != id
    ensures Keyed(Unfiled(pool, id, dir, t), at - {pool[id].key})
    ensures Kids(Unfiled(pool, id, dir, t), at - {pool[id].key}, d) ==
            if d == dir then Kids(pool, at, d) - {pool[id].key} else Kids(pool, at, d)
  {}

  lemma RemoveFiled(pool: Pool, at: map<Key, nat>, id: nat, dir: nat, t: Tree<nat>)
    requires Keyed(pool, at) && Filed(pool, at) && id in pool && pool[id].parent == Some(dir) && dir in pool && dir != id
    requires pool[dir].dcache.Some?
    requires Sorted(InOrder(t)) && MapOf(InOrder(t)) == MapOf(InOrder(pool[dir].dcache.value)) - {pool[id].key}
    ensures var pool', at' := Unfiled(pool, id, dir, t), at - {pool[id].key};
            Keyed(pool', at') && Filed(pool', at')
  {
    hide InOrder, MapOf, Sorted, Kids;
    var pool', at' := Unfiled(pool, id, dir, t), at - {pool[id].key};
    forall d | d in pool' && pool'[d].dcache.Some?
      ensures TreeOk(pool', at', d)
    {
      assert TreeOk(pool, at, d);
      RemoveKids(pool, at, id, dir, t, d);
    }
  }

  lemma RemoveKeeps(h: Hashing, pool: Pool, chains: seq<seq<nat>>, at: map<Key, nat>, id: nat, dir: nat, t: Tree<nat>, i: nat)
    requires Inv(h, pool, chains, at) && id in pool && pool[id].parent == Some(dir) && dir in pool && pool[dir].dcache.Some?
    requires forall other :: other in pool ==> pool[other].parent != Some(id)
    requires Sorted(InOrder(t)) && MapOf(InOrder(t)) == MapOf(InOrder(pool[dir].dcache.value)) - {pool[id].key}
    requires i < |chains[Bucket(h, pool[id].key)]| && chains[Bucket(h, pool[id].key)][i] == id
    ensures var b := Bucket(h, pool[id].key);
            Inv(h, Unfiled(pool, id, dir, t), chains[b := chains[b][..i] + chains[b][i + 1..]], at - {pool[id].key})
  {
    hide Chained, Rooted, Filed, Keyed, View, InOrder, MapOf, Sorted, Bucket;
    var pool1 := pool[dir := pool[dir].(dcache := Some(t))];
    BucketInRange(h, pool[id].key);
    ChainsInRange(h, pool, chains);
    RemoveView(pool, at, id, dir, t);
    SameKeysKeep(h, pool, pool1, chains, at);
    RemoveChained(h, pool1, chains, Bucket(h, pool[id].key), i);
    RemoveFiled(pool, at, id, dir, t);
  }
}
