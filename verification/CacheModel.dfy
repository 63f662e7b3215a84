/** What the metadata cache promises, told by the history of calls alone. */
module CacheModel {
  import opened Bytes
  import opened Keys
  import opened KvStore

  datatype Meta = Meta(value: Value, weak: bool, isDir: bool, parent: Option<Key>)

  type Cached = map<Key, Meta>

  datatype Status = Ok | NotFound | FoundFree

  datatype Op =
    | Get(key: Key)
    | Put(key: Key, value: Value, dir: Option<Key>, isDir: bool)
    | Del(key: Key)
    | WeakDel(key: Key)

  /** A put overwrites a cached item in place, and files a new one under its directory if that is cached. */
  function AfterPut(m: Cached, key: Key, value: Value, dir: Option<Key>, isDir: bool): Cached {
    if key in m then m[key := m[key].(value := value, weak := false)]
    else
      var filed := dir.Some? && (dir.value in m || dir.value == key);
      m[key := Meta(value, false, isDir, if filed then dir else None)]
  }

  function Apply(m: Cached, op: Op): Cached {
    match op
    case Get(k) => if k in m then m[k := m[k].(weak := false)] else m
    case Put(k, v, dir, isDir) => AfterPut(m, k, v, dir, isDir)
    case Del(k) => m - {k}
    case WeakDel(k) => if k in m then m[k := m[k].(weak := true)] else m
  }

  ghost predicate Childless(m: Cached, dir: Key) {
    forall k :: k in m ==> m[k].parent != Some(dir)
  }

  /** What callers owe: a cached directory named by a put is one, and what is deleted has a parent and no children. */
  ghost predicate Allowed(m: Cached, op: Op) {
    match op
    case Put(k, _, dir, isDir) =>
      k !in m && dir.Some? ==> (dir.value in m ==> m[dir.value].isDir) && (dir.value == k ==> isDir)
    case Del(k) => k in m ==> m[k].parent.Some? && Childless(m, k)
    case _ => true
  }

  function Replay(ops: seq<Op>): Cached {
    if ops == [] then map[] else Apply(Replay(ops[..|ops| - 1]), ops[|ops| - 1])
  }

  ghost predicate Proper(ops: seq<Op>) {
    ops == [] || (Proper(ops[..|ops| - 1]) && Allowed(Replay(ops[..|ops| - 1]), ops[|ops| - 1]))
  }

  /** The value of the last put of a key, unless a delete of it came later. */
  function Latest(ops: seq<Op>, key: Key): Option<Value> {
    if ops == [] then None
    else
      match ops[|ops| - 1]
      case Put(k, v, _, _) => if k == key then Some(v) else Latest(ops[..|ops| - 1], key)
      case Del(k) => if k == key then None else Latest(ops[..|ops| - 1], key)
      case _ => Latest(ops[..|ops| - 1], key)
  }

  /** The last call that named the key was a weak delete. */
  predicate WeakLast(ops: seq<Op>, key: Key) {
    ops != [] && if ops[|ops| - 1].key == key then ops[|ops| - 1].WeakDel? else WeakLast(ops[..|ops| - 1], key)
  }

  /** The directory given by the put that brought the key into the cache. */
  function FiledUnder(ops: seq<Op>, key: Key): Option<Key> {
    if ops == [] then None
    else
      var front := ops[..|ops| - 1];
      match ops[|ops| - 1]
      case Put(k, _, dir, _) =>
        if k == key && Latest(front, key).None?
        then (if dir.Some? && (Latest(front, dir.value).Some? || dir.value == key) then dir else None)
        else FiledUnder(front, key)
      case Del(k) => if k == key then None else FiledUnder(front, key)
      case _ => FiledUnder(front, key)
  }

  /** The put that brought the key into the cache made it a directory. */
  predicate CameAsDir(ops: seq<Op>, key: Key) {
    ops != [] &&
      var front := ops[..|ops| - 1];
      match ops[|ops| - 1]
      case Put(k, _, _, isDir) => if k == key && Latest(front, key).None? then isDir else CameAsDir(front, key)
      case _ => CameAsDir(front, key)
  }

  function StatusOf(ops: seq<Op>, key: Key): Status {
    if Latest(ops, key).None? then NotFound else if WeakLast(ops, key) then FoundFree else Ok
  }

  /** After any calls, the cache holds the latest undeleted puts; weak deletes only mark. */
  lemma {:induction false} HoldsLatest(ops: seq<Op>, key: Key)
    ensures key in Replay(ops) <==> Latest(ops, key).Some?
    ensures key in Replay(ops) ==> Latest(ops, key) == Some(Replay(ops)[key].value)
    ensures key in Replay(ops) ==> (Replay(ops)[key].weak <==> WeakLast(ops, key))
    ensures key in Replay(ops) ==> FiledUnder(ops, key) == Replay(ops)[key].parent
    ensures key in Replay(ops) ==> (Replay(ops)[key].isDir <==> CameAsDir(ops, key))
  {
    if ops != [] {
      var front, op := ops[..|ops| - 1], ops[|ops| - 1];
      HoldsLatest(front, key);
      if op.Put? && op.dir.Some? {
        HoldsLatest(front, op.dir.value);
      }
    }
  }

  lemma ReplaySnoc(ops: seq<Op>, op: Op)
    ensures Replay(ops + [op]) == Apply(Replay(ops), op)
    ensures Proper(ops + [op]) <==> Proper(ops) && Allowed(Replay(ops), op)
  {
    assert (ops + [op])[..|ops|] == ops;
  }

  /** In a proper history every parent is a cached directory. */
  lemma {:induction false} ParentsAreCached(ops: seq<Op>, key: Key)
    requires Proper(ops) && key in Replay(ops) && Replay(ops)[key].parent.Some?
    ensures var m := Replay(ops); m[key].parent.value in m && m[m[key].parent.value].isDir
  {
    var front, op := ops[..|ops| - 1], ops[|ops| - 1];
    if key in Replay(front) && Replay(front)[key].parent.Some? {
      ParentsAreCached(front, key);
    }
  }
}
