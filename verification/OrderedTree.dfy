/**
 Binary search trees over keys, as the kernel red-black trees hold them.  A node is named
 by its position in key order; recolouring and rotation may change the shape of a tree,
 never that order.
 */
module OrderedTree {
  import opened Keys

  datatype Tree<V> = Leaf | Node(left: Tree<V>, key: Key, val: V, right: Tree<V>)

  type Entry<V> = (Key, V)

  function InOrder<V>(t: Tree<V>): seq<Entry<V>> {
    match t
    case Leaf => []
    case Node(l, k, v, r) => InOrder(l) + [(k, v)] + InOrder(r)
  }

  ghost predicate Sorted<V>(es: seq<Entry<V>>) {
    forall i, j :: 0 <= i < j < |es| ==> KeyCmp(es[i].0, es[j].0) < 0
  }

  /** In `es`, everything before `lo` is below the probe and everything from `hi` on is above it. */
  ghost predicate Between<V>(es: seq<Entry<V>>, key: Key, lo: nat, hi: nat) {
    && lo <= hi <= |es|
    && (forall i :: 0 <= i < lo ==> KeyCmp(key, es[i].0) > 0)
    && (forall i :: hi <= i < |es| ==> KeyCmp(key, es[i].0) < 0)
  }

  /** `t` is the subtree of the tree with order `es` that starts at position `lo`. */
  ghost predicate SubtreeAt<V>(es: seq<Entry<V>>, t: Tree<V>, lo: nat) {
    lo + |InOrder(t)| <= |es| && es[lo..lo + |InOrder(t)|] == InOrder(t)
  }

  lemma SliceParts<T>(es: seq<T>, lo: nat, a: seq<T>, x: T, b: seq<T>)
    requires lo + |a| + 1 + |b| <= |es| && es[lo..lo + |a| + 1 + |b|] == a + [x] + b
    ensures var at := lo + |a|;
            es[at] == x && es[lo..at] == a && es[at + 1..at + 1 + |b|] == b
  {
    var at := lo + |a|;
    var s := a + [x] + b;
    assert es[at] == s[|a|];
    assert es[lo..at] == s[..|a|];
    assert es[at + 1..at + 1 + |b|] == s[|a| + 1..];
  }

  lemma SubtreeParts<V>(es: seq<Entry<V>>, t: Tree<V>, lo: nat)
    requires SubtreeAt(es, t, lo) && t.Node?
    ensures var at := lo + |InOrder(t.left)|;
            && at < |es| && es[at] == (t.key, t.val)
            && SubtreeAt(es, t.left, lo) && SubtreeAt(es, t.right, at + 1)
            && at + 1 + |InOrder(t.right)| == lo + |InOrder(t)|
  {
    hide InOrder;
    InOrderNode(t);
    SliceParts(es, lo, InOrder(t.left), (t.key, t.val), InOrder(t.right));
  }

  lemma InOrderNode<V>(t: Tree<V>)
    requires t.Node?
    ensures InOrder(t) == InOrder(t.left) + [(t.key, t.val)] + InOrder(t.right)
  {}

  lemma InOrderLeaf<V>()
    ensures InOrder<V>(Leaf) == []
  {}

  /** Below the node at `at` and above it, in a sorted order. */
  lemma NarrowBelow<V>(es: seq<Entry<V>>, key: Key, lo: nat, hi: nat, at: nat)
    requires Sorted(es) && Between(es, key, lo, hi) && lo <= at < hi && KeyCmp(key, es[at].0) < 0
    ensures Between(es, key, lo, at)
  {
    forall i | at <= i < |es|
      ensures KeyCmp(key, es[i].0) < 0
    {
      if at < i {
        KeyCmpTransitive(key, es[at].0, es[i].0);
      }
    }
  }

  lemma NarrowAbove<V>(es: seq<Entry<V>>, key: Key, lo: nat, hi: nat, at: nat)
    requires Sorted(es) && Between(es, key, lo, hi) && lo <= at < hi && KeyCmp(key, es[at].0) > 0
    ensures Between(es, key, at + 1, hi)
  {
    forall i | 0 <= i <= at
      ensures KeyCmp(key, es[i].0) > 0
    {
      if i < at {
        KeyCmpTotal(key, es[at].0);
        KeyCmpTotal(key, es[i].0);
        KeyCmpTotal(es[at].0, key);
        KeyCmpTransitive(es[i].0, es[at].0, key);
        KeyCmpTotal(es[i].0, key);
      }
    }
  }

  /** Exact search: the position of the key, or none with the place where it belongs. */
  method Find<V>(root: Tree<V>, key: Key) returns (found: bool, at: nat)
    requires Sorted(InOrder(root))
    ensures at <= |InOrder(root)|
    ensures found ==> at < |InOrder(root)| && InOrder(root)[at].0 == key
    ensures !found ==> Between(InOrder(root), key, at, at)
  {
    hide KeyCmp, InOrder;
    InOrderLeaf<V>();
    ghost var es := InOrder(root);
    var node := root;
    at := 0;
    assert es[0..|es|] == es;
    while node.Node?
      invariant SubtreeAt(es, node, at) && Between(es, key, at, at + |InOrder(node)|)
      decreases node
    {
      SubtreeParts(es, node, at);
      var mid := at + |InOrder(node.left)|;
      var result := KeyCmp(key, node.key);
      KeyCmpTotal(key, node.key);
      if result < 0 {
        NarrowBelow(es, key, at, at + |InOrder(node)|, mid);
        node := node.left;
      } else if result > 0 {
        NarrowAbove(es, key, at, at + |InOrder(node)|, mid);
        node := node.right;
        at := mid + 1;
      } else {
        return true, mid;
      }
    }
    found := false;
  }

  /** `at` is the first position whose key is not below the probe. */
  ghost predicate LowerBound<V>(es: seq<Entry<V>>, key: Key, at: nat) {
    && at <= |es|
    && (forall i :: 0 <= i < at ==> KeyCmp(key, es[i].0) > 0)
    && (forall i :: at <= i < |es| ==> KeyCmp(key, es[i].0) <= 0)
  }

  /** A key in a sorted order is its own lower bound. */
  lemma HitIsLowerBound<V>(es: seq<Entry<V>>, key: Key, at: nat)
    requires Sorted(es) && at < |es| && es[at].0 == key
    ensures LowerBound(es, key, at)
  {
    forall i | 0 <= i < at
      ensures KeyCmp(key, es[i].0) > 0
    {
      KeyCmpTotal(es[i].0, key);
    }
    KeyCmpTotal(key, key);
  }

  /**
   Lower-bound search as the store does it: go right while the node is below the probe; at
   the first node above it walk back through the predecessors.
   */
  method FindGe<V>(root: Tree<V>, key: Key) returns (found: bool, at: nat)
    requires Sorted(InOrder(root))
    ensures LowerBound(InOrder(root), key, at)
    ensures found <==> at < |InOrder(root)|
  {
    hide KeyCmp, InOrder;
    InOrderLeaf<V>();
    ghost var es := InOrder(root);
    var node := root;
    at := 0;
    assert es[0..|es|] == es;
    while node.Node?
      invariant SubtreeAt(es, node, at) && Between(es, key, at, at + |InOrder(node)|) && at + |InOrder(node)| == |es|
      decreases node
    {
      SubtreeParts(es, node, at);
      var mid := at + |InOrder(node.left)|;
      var result := KeyCmp(key, node.key);
      KeyCmpTotal(key, node.key);
      if result < 0 {
        NarrowBelow(es, key, at, at + |InOrder(node)|, mid);
        at := WalkBack(root, key, mid);
        return true, at;
      } else if result > 0 {
        NarrowAbove(es, key, at, at + |InOrder(node)|, mid);
        node := node.right;
        at := mid + 1;
      } else {
        HitIsLowerBound(es, key, mid);
        return true, mid;
      }
    }
    found := false;
  }

  /** The predecessor walk from a node above the probe. */
  method WalkBack<V>(root: Tree<V>, key: Key, start: nat) returns (at: nat)
    requires Sorted(InOrder(root)) && start < |InOrder(root)|
    requires forall i :: start <= i < |InOrder(root)| ==> KeyCmp(key, InOrder(root)[i].0) < 0
    ensures at < |InOrder(root)| && LowerBound(InOrder(root), key, at)
  {
    hide KeyCmp;
    var es := InOrder(root);
    at := start;
    while at > 0
      invariant at < |es| && forall i :: at <= i < |es| ==> KeyCmp(key, es[i].0) < 0
    {
      var prev := at - 1;
      var result := KeyCmp(key, es[prev].0);
      KeyCmpTotal(key, es[prev].0);
      if result == 0 {
        HitIsLowerBound(es, key, prev);
        return prev;
      } else if result > 0 {
        NarrowBetween(es, key, at);
        return;
      }
      at := prev;
    }
  }

  lemma NarrowBetween<V>(es: seq<Entry<V>>, key: Key, at: nat)
    requires Sorted(es) && 0 < at < |es| && KeyCmp(key, es[at - 1].0) > 0
    requires forall i :: at <= i < |es| ==> KeyCmp(key, es[i].0) < 0
    ensures LowerBound(es, key, at)
  {
    NarrowAbove(es, key, 0, at, at - 1);
  }

  // Structural changes.

  /** The new node linked where the descent for its key ends. */
  function Link<V>(t: Tree<V>, key: Key, val: V): Tree<V> {
    match t
    case Leaf => Node(Leaf, key, val, Leaf)
    case Node(l, k, v, r) => if KeyCmp(key, k) < 0 then Node(Link(l, key, val), k, v, r) else Node(l, k, v, Link(r, key, val))
  }

  function RemoveFirst<V>(t: Tree<V>): Tree<V>
    requires t.Node?
  {
    if t.left.Leaf? then t.right else Node(RemoveFirst(t.left), t.key, t.val, t.right)
  }

  /** The tree without the node at a position; an inner node is replaced by its successor. */
  function Unlink<V>(t: Tree<V>, at: nat): Tree<V>
    requires at < |InOrder(t)|
  {
    var n := |InOrder(t.left)|;
    if at < n then Node(Unlink(t.left, at), t.key, t.val, t.right)
    else if at > n then Node(t.left, t.key, t.val, Unlink(t.right, at - n - 1))
    else if t.left.Leaf? then t.right
    else if t.right.Leaf? then t.left
    else
      var next := InOrder(t.right)[0];
      Node(t.left, next.0, next.1, RemoveFirst(t.right))
  }

  function SetVal<V>(t: Tree<V>, at: nat, val: V): Tree<V>
    requires at < |InOrder(t)|
  {
    var n := |InOrder(t.left)|;
    if at < n then Node(SetVal(t.left, at, val), t.key, t.val, t.right)
    else if at > n then Node(t.left, t.key, t.val, SetVal(t.right, at - n - 1, val))
    else t.(val := val)
  }

  lemma InsertLeft<T>(a: seq<T>, x: T, b: seq<T>, e: T, at: nat)
    requires at <= |a|
    ensures (a[..at] + [e] + a[at..]) + [x] + b == (a + [x] + b)[..at] + [e] + (a + [x] + b)[at..]
  {}

  lemma InsertRight<T>(a: seq<T>, x: T, b: seq<T>, e: T, at: nat)
    requires at <= |b|
    ensures var s, n := a + [x] + b, |a| + 1 + at;
            a + [x] + (b[..at] + [e] + b[at..]) == s[..n] + [e] + s[n..]
  {}

  lemma {:induction false} LinkInserts<V>(t: Tree<V>, key: Key, val: V, at: nat)
    requires Sorted(InOrder(t)) && Between(InOrder(t), key, at, at)
    ensures InOrder(Link(t, key, val)) == InOrder(t)[..at] + [(key, val)] + InOrder(t)[at..]
  {
    hide KeyCmp, InOrder;
    InOrderLeaf<V>();
    InOrderNode(Link(t, key, val));
    match t
    case Leaf =>
    case Node(l, k, v, r) =>
      InOrderNode(t);
      var es, n := InOrder(t), |InOrder(l)|;
      assert es[0..0 + |InOrder(l)| + 1 + |InOrder(r)|] == es;
      SliceParts(es, 0, InOrder(l), (k, v), InOrder(r));
      KeyCmpTotal(key, k);
      PartsSorted(InOrder(l), (k, v), InOrder(r), key, at);
      if KeyCmp(key, k) < 0 {
        LinkInserts(l, key, val, at);
        InsertLeft(InOrder(l), (k, v), InOrder(r), (key, val), at);
      } else {
        LinkInserts(r, key, val, at - n - 1);
        InsertRight(InOrder(l), (k, v), InOrder(r), (key, val), at - n - 1);
      }
  }

  /** The place of a key in a node's order is its place on one side of the node. */
  lemma PartsSorted<V>(a: seq<Entry<V>>, x: Entry<V>, b: seq<Entry<V>>, key: Key, at: nat)
    requires Sorted(a + [x] + b) && Between(a + [x] + b, key, at, at)
    ensures Sorted(a) && Sorted(b)
    ensures KeyCmp(key, x.0) < 0 ==> at <= |a| && Between(a, key, at, at)
    ensures KeyCmp(key, x.0) >= 0 ==> at > |a| && Between(b, key, at - |a| - 1, at - |a| - 1)
  {
    hide KeyCmp;
    var s := a + [x] + b;
    assert s[|a|] == x;
    assert forall i :: 0 <= i < |a| ==> s[i] == a[i];
    assert forall i :: 0 <= i < |b| ==> s[|a| + 1 + i] == b[i];
  }

  lemma {:induction false} RemoveFirstRemoves<V>(t: Tree<V>)
    requires t.Node?
    ensures InOrder(t) != [] && InOrder(RemoveFirst(t)) == InOrder(t)[1..]
  {
    if t.left.Leaf? {
    } else {
      RemoveFirstRemoves(t.left);
    }
  }

  lemma RemoveLeft<T>(a: seq<T>, x: T, b: seq<T>, at: nat)
    requires at < |a|
    ensures (a[..at] + a[at + 1..]) + [x] + b == (a + [x] + b)[..at] + (a + [x] + b)[at + 1..]
  {}

  lemma RemoveRight<T>(a: seq<T>, x: T, b: seq<T>, at: nat)
    requires at < |b|
    ensures var s, n := a + [x] + b, |a| + 1 + at;
            a + [x] + (b[..at] + b[at + 1..]) == s[..n] + s[n + 1..]
  {}

  lemma RemoveMiddle<T>(a: seq<T>, x: T, b: seq<T>)
    ensures (a + [x] + b)[..|a|] + (a + [x] + b)[|a| + 1..] == a + b
    ensures a == [] ==> a + b == b
    ensures b == [] ==> a + b == a
    ensures b != [] ==> a + [b[0]] + b[1..] == a + b
  {}

  lemma {:induction false} UnlinkRemoves<V>(t: Tree<V>, at: nat)
    requires at < |InOrder(t)|
    ensures InOrder(Unlink(t, at)) == InOrder(t)[..at] + InOrder(t)[at + 1..]
  {
    InOrderLeaf<V>();
    assert t.Node?;
    InOrderNode(t);
    var a, x, b := InOrder(t.left), (t.key, t.val), InOrder(t.right);
    if Unlink(t, at).Node? {
      InOrderNode(Unlink(t, at));
    }
    hide InOrder;
    if at < |a| {
      UnlinkRemoves(t.left, at);
      RemoveLeft(a, x, b, at);
    } else if at > |a| {
      UnlinkRemoves(t.right, at - |a| - 1);
      RemoveRight(a, x, b, at - |a| - 1);
    } else {
      RemoveMiddle(a, x, b);
      if t.right.Node? {
        RemoveFirstRemoves(t.right);
      }
    }
  }

  lemma ReplaceLeft<T>(a: seq<T>, x: T, b: seq<T>, at: nat, e: T)
    requires at < |a|
    ensures a[at := e] + [x] + b == (a + [x] + b)[at := e] && (a + [x] + b)[at] == a[at]
  {}

  lemma ReplaceRight<T>(a: seq<T>, x: T, b: seq<T>, at: nat, e: T)
    requires at < |b|
    ensures a + [x] + b[at := e] == (a + [x] + b)[|a| + 1 + at := e] && (a + [x] + b)[|a| + 1 + at] == b[at]
  {}

  lemma {:induction false} SetValSets<V>(t: Tree<V>, at: nat, val: V)
    requires at < |InOrder(t)|
    ensures InOrder(SetVal(t, at, val)) == InOrder(t)[at := (InOrder(t)[at].0, val)]
  {
    InOrderLeaf<V>();
    assert t.Node?;
    InOrderNode(t);
    InOrderNode(SetVal(t, at, val));
    hide InOrder;
    var a, x, b := InOrder(t.left), (t.key, t.val), InOrder(t.right);
    if at < |a| {
      SetValSets(t.left, at, val);
      ReplaceLeft(a, x, b, at, (a[at].0, val));
    } else if at > |a| {
      SetValSets(t.right, at - |a| - 1, val);
      ReplaceRight(a, x, b, at - |a| - 1, (b[at - |a| - 1].0, val));
    } else {
      assert (a + [x] + b)[at := (t.key, val)] == a + [(t.key, val)] + b;
    }
  }

  /** rb_insert_color and the rebalancing of rb_erase: any shape with the same order. */
  method Recolour<V>(t: Tree<V>) returns (r: Tree<V>)
    ensures InOrder(r) == InOrder(t)
  {
    r := t;
  }

  /** Descends for the key; fails if it is there, otherwise links a new node. */
  method Insert<V>(root: Tree<V>, key: Key, val: V) returns (ok: bool, r: Tree<V>, at: nat)
    requires Sorted(InOrder(root))
    ensures !ok ==> r == root && at < |InOrder(root)| && InOrder(root)[at].0 == key
    ensures ok ==> Between(InOrder(root), key, at, at) && InOrder(r) == InOrder(root)[..at] + [(key, val)] + InOrder(root)[at..]
  {
    var found, place := Find(root, key);
    at := place;
    if found {
      return false, root, at;
    }
    LinkInserts(root, key, val, at);
    ok := true;
    r := Recolour(Link(root, key, val));
  }

  method Erase<V>(root: Tree<V>, at: nat) returns (r: Tree<V>)
    requires at < |InOrder(root)|
    ensures InOrder(r) == InOrder(root)[..at] + InOrder(root)[at + 1..]
  {
    UnlinkRemoves(root, at);
    r := Recolour(Unlink(root, at));
  }
}
