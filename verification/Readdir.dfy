/**
 Resumable directory reading.  Each call emits as many entries as the caller has room for
 and leaves a position behind: a raw number at the two ends, otherwise a context holding a
 cursor into the directory's tree.
 */
module Readdir {
  import opened Bytes
  import opened Keys
  import opened OrderedTree

  datatype Emit<V> = Dot | DotDot | Child(key: Key, val: V)

  /** The position the kernel keeps between calls. */
  datatype Pos = Raw(n: nat) | Context

  /** The context's own position: a key buffer while reading, a code at the end. */
  datatype DirPos = KeyBuffer | Code(n: nat)

  datatype Fetch = Hit | Full

  predicate IsChildOf(key: Key, ino: nat) {
    |key| >= 9 && KeyIno(key) == ino
  }

  /** A metadata key belongs to exactly the directory whose inode number it carries. */
  lemma ChildOfExactly(parent: nat, path: seq<Byte>, ino: nat)
    requires parent < U64
    ensures IsChildOf(MetaKey(parent, path), ino) <==> parent == ino
  {
    MetaKeyIno(parent, path);
  }

  /** The leading entries that belong to the directory. */
  function Visible<V>(es: seq<Entry<V>>, ino: nat): seq<Entry<V>> {
    if es == [] || !IsChildOf(es[0].0, ino) then [] else [es[0]] + Visible(es[1..], ino)
  }

  lemma {:induction false} VisiblePrefix<V>(es: seq<Entry<V>>, ino: nat)
    ensures Visible(es, ino) <= es
    ensures forall i :: 0 <= i < |Visible(es, ino)| ==> IsChildOf(es[i].0, ino)
    ensures |Visible(es, ino)| < |es| ==> !IsChildOf(es[|Visible(es, ino)|].0, ino)
  {
    hide IsChildOf;
    if es != [] && IsChildOf(es[0].0, ino) {
      VisiblePrefix(es[1..], ino);
    }
  }

  /** Nothing is hidden exactly when every child's key carries the directory's inode number. */
  lemma VisibleIsAll<V>(es: seq<Entry<V>>, ino: nat)
    ensures Visible(es, ino) == es <==> forall i :: 0 <= i < |es| ==> IsChildOf(es[i].0, ino)
  {
    hide Visible, IsChildOf;
    VisiblePrefix(es, ino);
    if forall i :: 0 <= i < |es| ==> IsChildOf(es[i].0, ino) {
      assert |Visible(es, ino)| == |es|;
    }
  }

  function Children<V>(es: seq<Entry<V>>): seq<Emit<V>> {
    seq(|es|, i requires 0 <= i < |es| => Child(es[i].0, es[i].1))
  }

  function Sum(xs: seq<nat>): nat { if xs == [] then 0 else Sum(xs[..|xs| - 1]) + xs[|xs| - 1] }

  function Min(a: nat, b: nat): nat { if a < b then a else b }

  class Reader<V> {
    const dir: Option<Tree<V>>   // the directory's tree, when the directory is cached
    const ino: nat
    var pos: Pos
    var dirPos: DirPos
    var node: Option<nat>        // the cursor: a place in the tree's order
    ghost var out: seq<Emit<V>>  // everything emitted so far

    /** What a full reading of the directory emits. */
    ghost function Listing(): seq<Emit<V>> {
      [Dot, DotDot] + Children(Visible(Order(), ino))
    }

    function Order(): seq<Entry<V>> { if dir.None? then [] else InOrder(dir.value) }

    predicate Finished()
      reads `pos
    {
      pos == Raw(3)
    }

    /** The position agrees with what was emitted. */
    ghost predicate Valid()
      reads this
    {
      && out <= Listing()
      && match pos
         case Raw(n) => (n < 2 && |out| == n) || (n == 3 && out == Listing())
         case Context =>
           match dirPos
           case KeyBuffer => node.Some? && |out| == node.value + 2 < |Listing()|
           case Code(n) => (n == 0 || n == 3) && out == Listing()
    }

    constructor (dir: Option<Tree<V>>, ino: nat)
      ensures Valid() && pos == Raw(0) && out == [] && this.dir == dir && this.ino == ino
    {
      this.dir, this.ino := dir, ino;
      pos, dirPos, node, out := Raw(0), KeyBuffer, None, [];
    }

    /** dir_emit_dots: stops where the room ends. */
    method EmitDots(room: nat) returns (left: nat)
      requires pos.Raw? && pos.n < 2 && out == [Dot, DotDot][..pos.n]
      modifies `pos, `out
      ensures pos.Raw? && pos.n == Min(old(pos.n) + room, 2) && out == [Dot, DotDot][..pos.n]
      ensures left == room - (pos.n - old(pos.n))
    {
      left := room;
      if pos.n == 0 {
        if left == 0 {
          return;
        }
        out, pos, left := out + [Dot], Raw(1), left - 1;
      }
      if left > 0 {
        out, pos, left := out + [DotDot], Raw(2), left - 1;
      }
    }

    /** DB_SET_RANGE on the cursor: where it stands, or the first child. */
    method SetRange() returns (r: Fetch)
      requires node.Some? ==> node.value < |Order()|
      modifies `node
      ensures r == if old(node).Some? || Order() != [] then Hit else Full
      ensures node == if old(node).Some? then old(node) else if Order() != [] then Some(0) else None
    {
      if node.Some? {
        return Hit;
      }
      if dir.Some? && InOrder(dir.value) != [] {
        node := Some(0);
        return Hit;
      }
      return Full;
    }

    /** DB_NEXT: the neighbour in key order. */
    method Next() returns (r: Fetch)
      requires node.Some? && node.value < |Order()|
      modifies `node
      ensures r == if old(node).value + 1 < |Order()| then Hit else Full
      ensures node == if r == Hit then Some(old(node).value + 1) else None
    {
      if node.value + 1 == |Order()| {
        node := None;
        return Full;
      }
      node := Some(node.value + 1);
      return Hit;
    }

    /** The loop of lightfs_bstore_meta_readdir. */
    method EmitChildren(room: nat)
      requires pos == Context && out <= Listing() && |out| >= 2 && dirPos == KeyBuffer
      requires if node.Some? then |out| == node.value + 2 < |Listing()| else |out| == 2
      modifies `node, `dirPos, `out
      ensures Valid() && |out| == Min(|old(out)| + room, |Listing()|)
    {
      ghost var es, seen := Order(), Visible(Order(), ino);
      VisiblePrefix(es, ino);
      hide Visible, IsChildOf;
      var left := room;
      var r := SetRange();
      while r == Hit
        invariant out <= Listing() && |out| == |old(out)| + (room - left) && 0 <= left <= room && dirPos == KeyBuffer
        invariant r == Hit ==> node.Some? && node.value < |es| && node.value + 2 == |out| <= |Listing()|
        invariant r == Full ==> |out| == |es| + 2
        decreases r == Hit, left
      {
        var e := Order()[node.value];
        if !IsChildOf(e.0, ino) {
          dirPos := Code(3);
          return;
        }
        assert node.value < |seen|;
        if left == 0 {
          return;
        }
        assert Listing()[|out|] == Child(e.0, e.1);
        out, left := out + [Child(e.0, e.1)], left - 1;
        r := Next();
      }
      dirPos := Code(0);
    }

    /** One call: emits the next entries of the listing, as many as there is room for. */
    method Call(room: nat)
      requires Valid() && !Finished()
      modifies this
      ensures Valid() && |out| == Min(|old(out)| + room, |Listing()|)
      ensures Finished() <==> old(pos) == Context && old(dirPos).Code?
    {
      hide Visible;
      var left := room;
      if pos.Raw? {
        assert out == [Dot, DotDot][..pos.n];
        left := EmitDots(room);
        if pos.n < 2 {
          return;
        }
        node, dirPos, pos := None, KeyBuffer, Context;
      } else if dirPos.Code? {
        pos := Raw(3);
        return;
      }
      EmitChildren(left);
    }

    /** Any sequence of calls, stopping when the reading is finished. */
    method ReadAll(rooms: seq<nat>)
      requires Valid() && pos == Raw(0) && out == []
      modifies this
      ensures Valid() && out <= Listing()
      ensures |out| == Min(Sum(rooms), |Listing()|) || (Finished() && out == Listing())
      ensures |rooms| > |Listing()| && (forall i :: 0 <= i < |rooms| ==> rooms[i] > 0) ==> Finished() && out == Listing()
    {
      hide Visible;
      var i := 0;
      while i < |rooms| && !Finished()
        invariant i <= |rooms| && Valid()
        invariant |out| == Min(Sum(rooms[..i]), |Listing()|)
        invariant (forall j :: 0 <= j < |rooms| ==> rooms[j] > 0) ==> Finished() || i <= |out|
      {
        assert rooms[..i + 1][..i] == rooms[..i];
        Call(rooms[i]);
        i := i + 1;
      }
      assert rooms[..|rooms|] == rooms;
    }
  }
}
