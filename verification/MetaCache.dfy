/** The metadata cache as its callers drive it: get, put, delete and weak delete over the hash chains. */
module MetaCache {
  import opened Bytes
  import opened Keys
  import opened OrderedTree
  import opened KvStore
  import opened CacheModel
  import opened CacheIndex

  /** A key whose item is filed nowhere is in no directory's tree. */
  lemma AbsentFromTree(pool: Pool, at: map<Key, nat>, key: Key, d: nat, p: nat)
    requires Keyed(pool, at) && d in pool && pool[d].dcache.Some? && TreeOk(pool, at, d)
    requires key in at && pool[at[key]].parent.None? && p < |InOrder(pool[d].dcache.value)|
    ensures InOrder(pool[d].dcache.value)[p].0 != key
  {
    hide InOrder, MapOf, Sorted;
    MapOfLists(InOrder(pool[d].dcache.value));
  }

  /** A child is in its parent's tree: no gap there is its place. */
  lemma PresentInTree(pool: Pool, at: map<Key, nat>, id: nat, p: nat)
    requires Keyed(pool, at) && id in pool && pool[id].parent.Some? && pool[id].parent.value in pool
    requires pool[pool[id].parent.value].dcache.Some? && TreeOk(pool, at, pool[id].parent.value)
    ensures !Between(InOrder(pool[pool[id].parent.value].dcache.value), pool[id].key, p, p)
  {
    hide InOrder, MapOf, Between;
    var d := pool[id].parent.value;
    assert pool[id].key in Kids(pool, at, d);
    if Between(InOrder(pool[d].dcache.value), pool[id].key, p, p) {
      AbsentKey(InOrder(pool[d].dcache.value), pool[id].key, p);
    }
  }

  /** The cache state tells the same story as the history of calls. */
  ghost predicate Tells(h: Hashing, pool: Pool, chains: seq<seq<nat>>, at: map<Key, nat>, history: seq<Op>) {
    Inv(h, pool, chains, at) && Proper(history) && View(pool, at) == Replay(history)
  }

  lemma Seen(h: Hashing, pool: Pool, chains: seq<seq<nat>>, at: map<Key, nat>, history: seq<Op>, key: Key)
    requires Tells(h, pool, chains, at, history)
    ensures key in at <==> Latest(history, key).Some?
    ensures key in at ==>
      && at[key] in pool && pool[at[key]].key == key && pool[at[key]].isWeakDel == pool[at[key]].isEvicted
      && Latest(history, key) == Some(pool[at[key]].value)
      && (WeakLast(history, key) <==> pool[at[key]].isWeakDel)
  {
    hide Chained, Filed, Proper, Replay, Latest, WeakLast;
    HoldsLatest(history, key);
    assert key in View(pool, at) <==> key in at;
    if key in at {
      assert ParentOk(pool, at[key]);
      assert View(pool, at)[key] == MetaOf(pool, at[key]);
    }
  }

  /** Any change of value and flags that a get, put or weak delete makes. */
  lemma TouchTells(h: Hashing, pool: Pool, chains: seq<seq<nat>>, at: map<Key, nat>, history: seq<Op>,
                   op: Op, v: Value, weak: bool)
    requires Tells(h, pool, chains, at, history) && op.key in at && Allowed(Replay(history), op)
    requires at[op.key] in pool && pool[at[op.key]].key == op.key && op.key in Replay(history)
    requires Apply(Replay(history), op) == Replay(history)[op.key := Replay(history)[op.key].(value := v, weak := weak)]
    ensures Tells(h, Touched(pool, at[op.key], v, weak), chains, at, history + [op])
  {
    hide Keyed, Marked, Chained, Rooted, Filed, Proper, Replay, Apply, Allowed, Touched, View;
    TouchKeeps(h, pool, chains, at, at[op.key], v, weak);
    TouchView(pool, at, at[op.key], v, weak);
    ReplaySnoc(history, op);
  }

  /** The same for the three calls that make one, from what the cache sees. */
  lemma Touch(h: Hashing, pool: Pool, chains: seq<seq<nat>>, at: map<Key, nat>, history: seq<Op>, op: Op, v: Value, weak: bool)
    requires Tells(h, pool, chains, at, history) && op.key in at
    requires at[op.key] in pool && pool[at[op.key]].key == op.key
    requires !op.Del? && v == (if op.Put? then op.value else pool[at[op.key]].value) && weak == op.WeakDel?
    ensures Tells(h, Touched(pool, at[op.key], v, weak), chains, at, history + [op])
  {
    hide Chained, Filed, Proper, Replay, Touched;
    ViewKeys(h, pool, chains, at);
    assert ParentOk(pool, at[op.key]);
    assert View(pool, at)[op.key] == MetaOf(pool, at[op.key]);
    TouchTells(h, pool, chains, at, history, op, v, weak);
  }

  lemma TellsInv(h: Hashing, pool: Pool, chains: seq<seq<nat>>, at: map<Key, nat>, history: seq<Op>)
    requires Tells(h, pool, chains, at, history)
    ensures Inv(h, pool, chains, at)
  {}

  /** A call for a key that is not cached changes nothing, unless it is a put. */
  lemma MissTells(h: Hashing, pool: Pool, chains: seq<seq<nat>>, at: map<Key, nat>, history: seq<Op>, op: Op)
    requires Tells(h, pool, chains, at, history) && op.key !in at && !op.Put?
    ensures Tells(h, pool, chains, at, history + [op])
  {
    hide Inv, Proper, Replay;
    ReplaySnoc(history, op);
    ViewKeys(h, pool, chains, at);
    assert Replay(history) - {op.key} == Replay(history);
  }

  lemma ViewKeys(h: Hashing, pool: Pool, chains: seq<seq<nat>>, at: map<Key, nat>)
    requires Inv(h, pool, chains, at)
    ensures Keyed(pool, at) && Rooted(pool) && View(pool, at).Keys == at.Keys
  {
    assert forall k :: k in at <==> k in View(pool, at);
  }

  /** A put that brings in an item without filing it. */
  lemma AddTells(h: Hashing, pool: Pool, chains: seq<seq<nat>>, at: map<Key, nat>, history: seq<Op>, op: Op, id: nat)
    requires Tells(h, pool, chains, at, history) && op.Put? && Allowed(Replay(history), op) && id !in pool && op.key !in at
    requires op.dir.None? || (op.dir.value !in at && op.dir.value != op.key)
    ensures var b := Bucket(h, op.key);
            Tells(h, pool[id := NewItem(h, op)], chains[b := [id] + chains[b]], at[op.key := id], history + [op])
  {
    hide Chained, Rooted, Filed, Proper, Replay, View, Keyed, Allowed, Bucket;
    ViewKeys(h, pool, chains, at);
    AddKeeps(h, pool, chains, at, id, NewItem(h, op));
    AddView(pool, at, id, NewItem(h, op));
    ReplaySnoc(history, op);
  }

  function NewItem(h: Hashing, op: Op): Item
    requires op.Put?
  {
    Item(op.key, op.value, false, false, h.fingerprint(op.key), if op.isDir then Some(Leaf) else None, None)
  }

  /** The directory a put names is a directory in the pool once the new item is there. */
  lemma DirHasTree(h: Hashing, pool: Pool, chains: seq<seq<nat>>, at: map<Key, nat>, history: seq<Op>, op: Op, id: nat)
    requires Tells(h, pool, chains, at, history) && op.Put? && Allowed(Replay(history), op) && id !in pool && op.key !in at
    requires op.dir.Some? && op.dir.value in at[op.key := id]
    ensures var d := at[op.key := id][op.dir.value];
            var pool' := pool[id := NewItem(h, op)];
            d in pool' && pool'[d].dcache.Some? && pool'[d].key == op.dir.value
  {
    hide Chained, Filed, Proper, Replay;
    ViewKeys(h, pool, chains, at);
    if op.dir.value != op.key {
      assert ParentOk(pool, at[op.dir.value]);
      assert View(pool, at)[op.dir.value] == MetaOf(pool, at[op.dir.value]);
    }
  }

  /** A put that brings in an item and files it under its directory. */
  lemma FileTells(h: Hashing, pool: Pool, chains: seq<seq<nat>>, at: map<Key, nat>, history: seq<Op>,
                  op: Op, id: nat, d: nat, t: Tree<nat>)
    requires Tells(h, pool, chains, at, history) && op.Put? && Allowed(Replay(history), op) && id !in pool && op.key !in at
    requires op.dir.Some? && op.dir.value in at[op.key := id] && d == at[op.key := id][op.dir.value]
    requires var pool1 := pool[id := NewItem(h, op)];
             && d in pool1 && pool1[d].dcache.Some? && pool1[d].key == op.dir.value
             && Sorted(InOrder(t)) && MapOf(InOrder(t)) == MapOf(InOrder(pool1[d].dcache.value))[op.key := id]
    ensures var b := Bucket(h, op.key);
            Tells(h, Linked(pool[id := NewItem(h, op)], id, d, t), chains[b := [id] + chains[b]],
                  at[op.key := id], history + [op])
  {
    hide Chained, Rooted, Filed, Proper, Replay, View, Keyed, Allowed, Bucket, Sorted, InOrder, MapOf, Linked;
    ChainsInRange(h, pool, chains);
    BucketInRange(h, op.key);
    var b, pool1, at1 := Bucket(h, op.key), pool[id := NewItem(h, op)], at[op.key := id];
    ViewKeys(h, pool, chains, at);
    AddKeeps(h, pool, chains, at, id, NewItem(h, op));
    AddView(pool, at, id, NewItem(h, op));
    LinkKeeps(h, pool1, chains[b := [id] + chains[b]], at1, id, d, t);
    LinkView(pool1, at1, id, d, t);
    ReplaySnoc(history, op);
  }

  lemma InvOfAdd(h: Hashing, pool: Pool, chains: seq<seq<nat>>, at: map<Key, nat>, op: Op, id: nat)
    requires Inv(h, pool, chains, at) && op.Put? && id !in pool && op.key !in at
    ensures var b := Bucket(h, op.key);
            Inv(h, pool[id := NewItem(h, op)], chains[b := [id] + chains[b]], at[op.key := id])
  {
    AddKeeps(h, pool, chains, at, id, NewItem(h, op));
  }

  lemma LinkedKeys(pool: Pool, id: nat, d: nat, t: Tree<nat>)
    requires id in pool && d in pool
    ensures Linked(pool, id, d, t).Keys == pool.Keys
  {}

  lemma UnfiledKeys(pool: Pool, id: nat, d: nat, t: Tree<nat>)
    requires d in pool
    ensures Unfiled(pool, id, d, t).Keys == pool.Keys - {id}
  {}

  lemma ReadyToFile(h: Hashing, pool: Pool, chains: seq<seq<nat>>, at: map<Key, nat>, id: nat, d: nat)
    requires Inv(h, pool, chains, at) && id in pool && pool[id].parent.None? && d in pool && pool[d].dcache.Some?
    ensures Sorted(InOrder(pool[d].dcache.value))
    ensures forall p :: 0 <= p < |InOrder(pool[d].dcache.value)| ==> InOrder(pool[d].dcache.value)[p].0 != pool[id].key
  {
    hide Chained, Rooted, InOrder, MapOf, Sorted;
    assert TreeOk(pool, at, d);
    forall p | 0 <= p < |InOrder(pool[d].dcache.value)|
      ensures InOrder(pool[d].dcache.value)[p].0 != pool[id].key
    {
      AbsentFromTree(pool, at, pool[id].key, d, p);
    }
  }

  /** What a delete finds: the parent's tree, with the item in it. */
  lemma ReadyToRemove(h: Hashing, pool: Pool, chains: seq<seq<nat>>, at: map<Key, nat>, history: seq<Op>, key: Key)
    requires Tells(h, pool, chains, at, history) && key in at && Allowed(Replay(history), Op.Del(key))
    ensures at[key] in pool && pool[at[key]].key == key && pool[at[key]].parent.Some?
    ensures var id, d := at[key], pool[at[key]].parent.value;
            && d in pool && pool[d].dcache.Some? && Sorted(InOrder(pool[d].dcache.value))
            && (forall other :: other in pool ==> pool[other].parent != Some(id))
            && (forall p :: !Between(InOrder(pool[d].dcache.value), key, p, p))
  {
    hide Chained, InOrder, MapOf, Sorted, Between, Proper, Replay;
    var id, m := at[key], Replay(history);
    ViewKeys(h, pool, chains, at);
    assert ParentOk(pool, id) && m[key] == MetaOf(pool, id);
    assert TreeOk(pool, at, pool[id].parent.value);
    forall other | other in pool
      ensures pool[other].parent != Some(id)
    {
      assert ParentOk(pool, other) && m[pool[other].key] == MetaOf(pool, other);
    }
    forall p: nat
      ensures !Between(InOrder(pool[pool[id].parent.value].dcache.value), key, p, p)
    {
      PresentInTree(pool, at, id, p);
    }
  }

  lemma RemoveTells(h: Hashing, pool: Pool, chains: seq<seq<nat>>, at: map<Key, nat>, history: seq<Op>,
                    key: Key, i: nat, t: Tree<nat>)
    requires Tells(h, pool, chains, at, history) && key in at && Allowed(Replay(history), Op.Del(key))
    requires at[key] in pool && pool[at[key]].key == key && pool[at[key]].parent.Some?
    requires var id, d := at[key], pool[at[key]].parent.value;
             && d in pool && pool[d].dcache.Some?
             && (forall other :: other in pool ==> pool[other].parent != Some(id))
             && Sorted(InOrder(t)) && MapOf(InOrder(t)) == MapOf(InOrder(pool[d].dcache.value)) - {key}
    requires |chains| == BUCKETS && i < |chains[Bucket(h, key)]| && chains[Bucket(h, key)][i] == at[key]
    ensures var b := Bucket(h, key);
            Tells(h, Unfiled(pool, at[key], pool[at[key]].parent.value, t), chains[b := chains[b][..i] + chains[b][i + 1..]],
                  at - {key}, history + [Op.Del(key)])
  {
    hide Chained, Rooted, Filed, Proper, Replay, View, Keyed, Allowed, Bucket, Sorted, InOrder, MapOf, Unfiled;
    BucketInRange(h, key);
    RemoveKeeps(h, pool, chains, at, at[key], pool[at[key]].parent.value, t, i);
    RemoveView(pool, at, at[key], pool[at[key]].parent.value, t);
    ReplaySnoc(history, Op.Del(key));
  }

  lemma OnChain(h: Hashing, pool: Pool, chains: seq<seq<nat>>, at: map<Key, nat>, key: Key)
    requires Keyed(pool, at) && Chained(h, pool, chains)
    ensures var b := Bucket(h, key); key in at ==> exists j :: 0 <= j < |chains[b]| && pool[chains[b][j]].key == key
  {
    if key in at {
      assert at[key] in chains[Bucket(h, key)];
    }
  }

  class Cache {
    const h: Hashing
    var pool: Pool
    var chains: seq<seq<nat>>
    var next: nat
    ghost var at: map<Key, nat>
    ghost var history: seq<Op>

    ghost predicate Valid()
      reads this
    {
      Tells(h, pool, chains, at, history) && forall id :: id in pool ==> id < next
    }

    constructor (h: Hashing)
      ensures Valid() && history == [] && this.h == h
    {
      this.h := h;
      pool, next, at, history := map[], 0, map[], [];
      chains := seq(BUCKETS, _ => []);
    }

    /** Walks the key's chain comparing fingerprints, then keys. */
    method Lookup(key: Key) returns (found: bool, b: nat, i: nat)
      requires Inv(h, pool, chains, at)
      ensures |chains| == BUCKETS && b == Bucket(h, key) < BUCKETS && i <= |chains[b]|
      ensures found <==> key in at
      ensures found ==> i < |chains[b]| && chains[b][i] == at[key]
    {
      hide Filed, Rooted, KeyCmp;
      var fp := h.fingerprint(key);
      b, i, found := Bucket(h, key), 0, false;
      while i < |chains[b]|
        invariant i <= |chains[b]| && forall j :: 0 <= j < i ==> pool[chains[b][j]].key != key
      {
        var it := pool[chains[b][i]];
        KeyCmpTotal(it.key, key);
        if it.fp == fp && KeyCmp(it.key, key) == 0 {
          return true, b, i;
        }
        i := i + 1;
      }
      OnChain(h, pool, chains, at, key);
    }

    /** Returns the latest undeleted put; right after a weak delete also says that the space was freed. */
    method Get(key: Key) returns (status: Status, value: Value)
      requires Valid()
      modifies `pool, `history
      ensures Valid() && history == old(history) + [Op.Get(key)]
      ensures status == StatusOf(old(history), key)
      ensures status != NotFound ==> Latest(old(history), key) == Some(value)
    {
      hide Tells, Inv, Latest, WeakLast, Replay;
      Seen(h, pool, chains, at, history, key);
      TellsInv(h, pool, chains, at, history);
      var found, b, i := Lookup(key);
      status, value := NotFound, [];
      if found {
        var id := chains[b][i];
        var it := pool[id];
        value := it.value;
        Touch(h, pool, chains, at, history, Op.Get(key), value, false);
        if it.isWeakDel && it.isEvicted {
          pool := Touched(pool, id, it.value, false);
          status := FoundFree;
        } else {
          assert Touched(pool, id, it.value, false) == pool;
          status := Ok;
        }
      } else {
        MissTells(h, pool, chains, at, history, Op.Get(key));
      }
      history := history + [Op.Get(key)];
    }

    /** Marks a cached item; only the status of the next get of it will differ. */
    method WeakDel(key: Key) returns (status: Status)
      requires Valid()
      modifies `pool, `history
      ensures Valid() && history == old(history) + [Op.WeakDel(key)]
      ensures status == if Latest(old(history), key).Some? then Ok else NotFound
    {
      hide Tells, Inv, Latest, WeakLast, Replay;
      Seen(h, pool, chains, at, history, key);
      TellsInv(h, pool, chains, at, history);
      var found, b, i := Lookup(key);
      if found {
        var id := chains[b][i];
        Touch(h, pool, chains, at, history, Op.WeakDel(key), pool[id].value, true);
        pool := Touched(pool, id, pool[id].value, true);
        status := Ok;
      } else {
        MissTells(h, pool, chains, at, history, Op.WeakDel(key));
        status := NotFound;
      }
      history := history + [Op.WeakDel(key)];
    }

    /** Overwrites a cached item, or adds one at the head of its chain and in its directory's tree. */
    method Put(key: Key, value: Value, dir: Option<Key>, isDir: bool)
      requires Valid() && Allowed(Replay(history), Op.Put(key, value, dir, isDir))
      modifies this
      ensures Valid() && history == old(history) + [Op.Put(key, value, dir, isDir)]
    {
      hide Tells, Inv, Latest, WeakLast, Replay, Allowed;
      ghost var op := Op.Put(key, value, dir, isDir);
      Seen(h, pool, chains, at, history, key);
      TellsInv(h, pool, chains, at, history);
      var found, b, i := Lookup(key);
      if found {
        var id := chains[b][i];
        Touch(h, pool, chains, at, history, op, value, false);
        pool := Touched(pool, id, value, false);
      } else {
        AddNew(key, value, dir, isDir, b);
      }
      history := history + [op];
    }

    method AddNew(key: Key, value: Value, dir: Option<Key>, isDir: bool, b: nat)
      requires Valid() && Allowed(Replay(history), Op.Put(key, value, dir, isDir)) && key !in at
      requires |chains| == BUCKETS && b == Bucket(h, key) < BUCKETS
      modifies `pool, `chains, `at, `next
      ensures Tells(h, pool, chains, at, history + [Op.Put(key, value, dir, isDir)])
      ensures forall id :: id in pool ==> id < next
    {
      hide Tells, Inv, Latest, WeakLast, Replay, Allowed, Linked;
      ghost var op, pool0, chains0, at0 := Op.Put(key, value, dir, isDir), pool, chains, at;
      TellsInv(h, pool, chains, at, history);
      var id := next;
      next := next + 1;
      pool := pool[id := Item(key, value, false, false, h.fingerprint(key), if isDir then Some(Leaf) else None, None)];
      chains := chains[b := [id] + chains[b]];
      at := at[key := id];
      assert pool[id] == NewItem(h, op);
      InvOfAdd(h, pool0, chains0, at0, op, id);
      var dfound, c, j := false, 0, 0;
      if dir.Some? {
        dfound, c, j := Lookup(dir.value);
      }
      if dfound {
        var d := chains[c][j];
        DirHasTree(h, pool0, chains0, at0, history, op, id);
        ReadyToFile(h, pool, chains, at, id, d);
        var ok, t, p := Insert(pool[d].dcache.value, key, id);
        InsertedOrder(InOrder(pool[d].dcache.value), key, id, p);
        FileTells(h, pool0, chains0, at0, history, op, id, d, t);
        LinkedKeys(pool, id, d, t);
        pool := Linked(pool, id, d, t);
      } else {
        AddTells(h, pool0, chains0, at0, history, op, id);
      }
    }

    /** Takes the item off its chain and out of its parent's tree. */
    method Del(key: Key) returns (status: Status)
      requires Valid() && Allowed(Replay(history), Op.Del(key))
      modifies `pool, `chains, `at, `history
      ensures Valid() && history == old(history) + [Op.Del(key)]
      ensures status == if Latest(old(history), key).Some? then Ok else NotFound
    {
      hide Tells, Inv, Latest, WeakLast, Replay, Allowed, Unfiled;
      Seen(h, pool, chains, at, history, key);
      TellsInv(h, pool, chains, at, history);
      var found, b, i := Lookup(key);
      if found {
        ReadyToRemove(h, pool, chains, at, history, key);
        var id := chains[b][i];
        var d := pool[id].parent.value;
        var hit, p := Find(pool[d].dcache.value, key);
        var t := Erase(pool[d].dcache.value, p);
        RemovedOrder(InOrder(pool[d].dcache.value), p);
        RemoveTells(h, pool, chains, at, history, key, i, t);
        UnfiledKeys(pool, id, d, t);
        chains := chains[b := chains[b][..i] + chains[b][i + 1..]];
        pool := Unfiled(pool, id, d, t);
        at := at - {key};
        status := Ok;
      } else {
        MissTells(h, pool, chains, at, history, Op.Del(key));
        status := NotFound;
      }
      history := history + [Op.Del(key)];
    }

    /** A cached directory has a tree. */
    lemma DirectoryHasTree(dir: Key)
      requires Valid() && dir in Replay(history) && Replay(history)[dir].isDir
      ensures Inv(h, pool, chains, at) && dir in at && at[dir] in pool && pool[at[dir]].dcache.Some?
    {
      hide Chained, Filed, Proper, Replay;
      ViewKeys(h, pool, chains, at);
      assert ParentOk(pool, at[dir]) && Replay(history)[dir] == MetaOf(pool, at[dir]);
    }

    /** A directory's tree, read in order, is the sorted list of the cached items filed under it. */
    lemma DirectoryListsChildren(dir: Key, k: Key)
      requires Valid() && dir in at && at[dir] in pool && pool[at[dir]].dcache.Some?
      ensures var es := InOrder(pool[at[dir]].dcache.value);
              && Sorted(es)
              && (HasKey(es, k) <==> Latest(history, k).Some? && FiledUnder(history, k) == Some(dir))
    {
      hide Chained, InOrder, MapOf, Sorted, Proper, Replay, Latest, FiledUnder;
      var d := at[dir];
      var es := InOrder(pool[d].dcache.value);
      assert TreeOk(pool, at, d);
      MapOfLists(es);
      HoldsLatest(history, k);
      ViewKeys(h, pool, chains, at);
      if k in at {
        assert ParentOk(pool, at[k]) && Replay(history)[k] == MetaOf(pool, at[k]);
      }
    }
  }
}
