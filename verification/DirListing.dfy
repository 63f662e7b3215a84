/** Reading a cached directory: the calls of a reader against the state of the metadata cache. */
module DirListing {
  import opened Bytes
  import opened Keys
  import opened OrderedTree
  import opened CacheModel
  import CacheIndex
  import KvStore
  import MetaCache
  import Readdir

  /** By the history of calls, `k` is cached and filed under `dir`. */
  ghost predicate FiledIn(history: seq<Op>, dir: Key, k: Key) {
    Latest(history, k).Some? && FiledUnder(history, k) == Some(dir)
  }

  ghost predicate Lists(listing: seq<Readdir.Emit<nat>>, k: Key) {
    exists i :: 0 <= i < |listing| && listing[i].Child? && listing[i].key == k
  }

  ghost predicate InKeyOrder(listing: seq<Readdir.Emit<nat>>) {
    forall i, j :: 0 <= i < j < |listing| && listing[i].Child? ==>
      listing[j].Child? && KeyCmp(listing[i].key, listing[j].key) < 0
  }

  ghost predicate Filed(history: seq<Op>, dir: Key, es: seq<Entry<nat>>) {
    Sorted(es) && forall k :: KvStore.HasKey(es, k) <==> FiledIn(history, dir, k)
  }

  function Dotted(es: seq<Entry<nat>>): seq<Readdir.Emit<nat>> { [Readdir.Dot, Readdir.DotDot] + Readdir.Children(es) }

  lemma DottedAt(es: seq<Entry<nat>>, i: nat)
    requires i < |es|
    ensures Dotted(es)[i + 2] == Readdir.Child(es[i].0, es[i].1)
  {}

  lemma DottedOrder(es: seq<Entry<nat>>)
    requires Sorted(es)
    ensures InKeyOrder(Dotted(es))
  {
    hide KeyCmp;
    var listing := Dotted(es);
    forall i, j | 0 <= i < j < |listing| && listing[i].Child?
      ensures listing[j].Child? && KeyCmp(listing[i].key, listing[j].key) < 0
    {
      DottedAt(es, i - 2);
      DottedAt(es, j - 2);
    }
  }

  lemma DottedKeys(es: seq<Entry<nat>>, k: Key)
    ensures Lists(Dotted(es), k) <==> KvStore.HasKey(es, k)
  {
    var listing := Dotted(es);
    if KvStore.HasKey(es, k) {
      var i :| 0 <= i < |es| && es[i].0 == k;
      assert listing[i + 2].key == k;
    }
    if Lists(listing, k) {
      var i :| 0 <= i < |listing| && listing[i].Child? && listing[i].key == k;
      assert es[i - 2].0 == k;
    }
  }

  lemma AllVisible(history: seq<Op>, dir: Key, es: seq<Entry<nat>>, ino: nat)
    requires Filed(history, dir, es) && forall k :: FiledIn(history, dir, k) ==> Readdir.IsChildOf(k, ino)
    ensures Readdir.Visible(es, ino) == es
  {
    hide FiledIn, Readdir.IsChildOf, KeyCmp, Readdir.Visible;
    forall i | 0 <= i < |es|
      ensures Readdir.IsChildOf(es[i].0, ino)
    {
      assert KvStore.HasKey(es, es[i].0);
    }
    Readdir.VisibleIsAll(es, ino);
  }

  /** A sorted tree of children is listed whole, in order, after the two dots. */
  lemma ListingShowsTree(history: seq<Op>, dir: Key, es: seq<Entry<nat>>, ino: nat)
    requires Filed(history, dir, es) && forall k :: FiledIn(history, dir, k) ==> Readdir.IsChildOf(k, ino)
    ensures var listing := [Readdir.Dot, Readdir.DotDot] + Readdir.Children(Readdir.Visible(es, ino));
            InKeyOrder(listing) && |listing| == |es| + 2 && forall k :: Lists(listing, k) <==> FiledIn(history, dir, k)
  {
    hide FiledIn, Readdir.IsChildOf, Readdir.Visible, Lists, InKeyOrder, KvStore.HasKey, Sorted;
    AllVisible(history, dir, es, ino);
    DottedOrder(es);
    forall k
      ensures Lists(Dotted(es), k) <==> FiledIn(history, dir, k)
    {
      DottedKeys(es, k);
    }
  }

  /**
   Looks the directory up and reads it with the rooms given.  With enough calls that each have
   room, every cached item filed under the directory is emitted exactly once, in key order.
   */
  method ReadDirectory(cache: MetaCache.Cache, dir: Key, ino: nat, rooms: seq<nat>) returns (r: Readdir.Reader<nat>)
    requires cache.Valid() && dir in Replay(cache.history) && Replay(cache.history)[dir].isDir
    requires forall k :: FiledIn(cache.history, dir, k) ==> Readdir.IsChildOf(k, ino)
    ensures r.Valid() && InKeyOrder(r.out)
    ensures forall k :: Lists(r.Listing(), k) <==> FiledIn(cache.history, dir, k)
    ensures |rooms| > |r.Listing()| && (forall i :: 0 <= i < |rooms| ==> rooms[i] > 0) ==> r.Finished() && r.out == r.Listing()
  {
    cache.DirectoryHasTree(dir);
    var found, b, i := cache.Lookup(dir);
    var tree := cache.pool[cache.chains[b][i]].dcache;
    ghost var es := InOrder(tree.value);
    TreeIsFiled(cache, dir);
    ListingShowsTree(cache.history, dir, es, ino);
    hide InKeyOrder, Lists, FiledIn, Readdir.Visible, InOrder;
    r := new Readdir.Reader(tree, ino);
    r.ReadAll(rooms);
    PrefixInOrder(r.Listing(), r.out);
  }

  lemma PrefixInOrder(listing: seq<Readdir.Emit<nat>>, out: seq<Readdir.Emit<nat>>)
    requires InKeyOrder(listing) && out <= listing
    ensures InKeyOrder(out)
  {
    hide KeyCmp;
  }

  lemma TreeIsFiled(cache: MetaCache.Cache, dir: Key)
    requires cache.Valid() && dir in cache.at && cache.at[dir] in cache.pool && cache.pool[cache.at[dir]].dcache.Some?
    ensures Filed(cache.history, dir, InOrder(cache.pool[cache.at[dir]].dcache.value))
  {
    hide KvStore.HasKey, Latest, FiledUnder, InOrder, CacheIndex.Inv, Sorted;
    forall k
      ensures KvStore.HasKey(InOrder(cache.pool[cache.at[dir]].dcache.value), k) <==> FiledIn(cache.history, dir, k)
    {
      cache.DirectoryListsChildren(dir, k);
    }
    cache.DirectoryListsChildren(dir, dir);
  }
}
