/**
 The index and its cache-tree over time: edits, each with its invalidation, then an update; against a
 rebuild from nothing (git-2.15.0/cache-tree.c).
 */
module CacheTreeIndex {
  import opened PathNames
  import opened CacheTree
  import opened CacheTreeInvalidate
  import opened CacheTreeUpdate

  datatype Option<+T> = None | Some(value: T)

  /** cache_tree(): a new, invalid node. */
  const EMPTY := Node(-1, NULL_OID, [])

  /** One edit: the path, and the index after it. */
  datatype Edit = Edit(path: string, after: seq<Entry>)

  lemma {:induction false} InvOrdered(hash: Hash, node: Node, es: seq<Entry>, root: bool)
    requires Inv(hash, node, es, root)
    ensures Ordered(node)
  {
    forall s | s in node.down ensures Ordered(s.child) { InvOrdered(hash, s.child, Under(es, s.name), false); }
  }

  lemma EmptyInv(hash: Hash, es: seq<Entry>)
    ensures Inv(hash, EMPTY, es, true)
  {
  }

  /** Each edit of the run changes the index at its path only. */
  ghost predicate EditRun(es: seq<Entry>, edits: seq<Edit>)
    decreases |edits|
  {
    edits == [] || (Edited(es, edits[0].after, edits[0].path) && EditRun(edits[0].after, edits[1..]))
  }

  ghost function IndexAfter(es: seq<Entry>, edits: seq<Edit>): seq<Entry>
    decreases |edits|
  {
    if edits == [] then es else IndexAfter(edits[0].after, edits[1..])
  }

  ghost function TreeAfter(node: Node, edits: seq<Edit>): Node
    decreases |edits|
  {
    if edits == [] then node else TreeAfter(Invalidate(node, edits[0].path), edits[1..])
  }

  /** After any run of edits, each with its invalidation, every node still valid agrees with the new index. */
  lemma {:induction false} EditsKeep(hash: Hash, node: Node, es: seq<Entry>, edits: seq<Edit>)
    requires Inv(hash, node, es, true) && EditRun(es, edits)
    ensures Inv(hash, TreeAfter(node, edits), IndexAfter(es, edits), true)
    decreases |edits|
  {
    if edits != [] {
      InvalidateKeeps(hash, node, es, edits[0].after, edits[0].path, true);
      EditsKeep(hash, Invalidate(node, edits[0].path), edits[0].after, edits[1..]);
    }
  }

  /** Below a valid node everything is valid. */
  lemma {:induction false} ValidBelow(hash: Hash, node: Node, es: seq<Entry>, root: bool, s: Sub)
    requires Inv(hash, node, es, root) && node.entry_count >= 0 && s in node.down
    ensures s.child.entry_count == |Under(es, s.name)| > 0 && s.child.oid == TreeOid(hash, Under(es, s.name))
  {
    assert IsDir(es, s.name) && Agrees(hash, s.child, Under(es, s.name));
    DirUnder(es, s.name);
  }

  /** Two neighbours of which the second lies below the first. */
  ghost predicate NeighbourConflict(es: seq<Entry>)
  {
    exists i :: 0 <= i < |es| - 1 && HasPrefix(es[i + 1].name, es[i].name + "/")
  }

  /** verify_cache on a merged index: neighbours are compared, and no others. */
  method VerifyCache(cache: seq<Entry>) returns (ok: bool)
    ensures ok <==> !NeighbourConflict(cache)
  {
    var i := 0;
    ok := true;
    while i < |cache| - 1
      invariant 0 <= i && (i <= |cache| - 1 || i == 0)
      invariant ok <==> forall k :: 0 <= k < i ==> !HasPrefix(cache[k + 1].name, cache[k].name + "/")
    {
      var this_name, next_name := cache[i].name, cache[i + 1].name;
      var this_len := |this_name|;
      ConflictTest(this_name, next_name);
      if this_len < |next_name| && next_name[..this_len] == this_name && next_name[this_len] == '/' {
        ok := false;
      }
      i := i + 1;
    }
  }

  lemma ConflictTest(a: string, b: string)
    ensures HasPrefix(b, a + "/") <==> |a| < |b| && b[..|a|] == a && b[|a|] == '/'
  {
    if |a| < |b| {
      assert b[..|a| + 1] == b[..|a|] + [b[|a|]];
      assert (a + "/")[..|a|] == a && (a + "/")[|a|] == '/';
    }
  }

  /** So an index with both a and a/c passes if a-b sorts between them. */
  lemma VerifyMisses(oid: Oid)
    ensures var es := [Entry("a", 0x81A4, oid), Entry("a-b", 0x81A4, oid), Entry("a/c", 0x81A4, oid)];
      IndexOk(es) && !NeighbourConflict(es) && HasPrefix(es[2].name, es[0].name + "/")
  {
    var es := [Entry("a", 0x81A4, oid), Entry("a-b", 0x81A4, oid), Entry("a/c", 0x81A4, oid)];
    assert "a"[1..] == "" && "a-b"[1..] == "-b" && "a/c"[1..] == "/c";
    assert Lt("a"[1..], "a-b"[1..]) && Lt("a"[1..], "a/c"[1..]) && Lt("a-b"[1..], "a/c"[1..]);
    assert Lt(es[0].name, es[1].name) && Lt(es[0].name, es[2].name) && Lt(es[1].name, es[2].name);
    assert "a/c"[..2] == "a" + "/";
    assert "a-b"[..2] == "a-" && ("a" + "/")[1] == '/';
  }

  /** All objects are there, and verify_cache finds nothing: an update has no reason to fail. */
  ghost predicate Complete(hash: Hash, db: set<Oid>, missing_ok: bool, dryrun: bool, es: seq<Entry>)
  {
    && Writable(db, missing_ok, es) && (missing_ok || !dryrun)
    && Proper(hash)
    && !NeighbourConflict(es)
  }

  class IndexState {
    const hash: Hash
    const db: ObjectDb
    var cache: seq<Entry>
    var cache_tree: Option<Node>
    var cache_changed: bool

    ghost predicate Valid()
      reads this
    {
      IndexOk(cache) && (cache_tree.Some? ==> Inv(hash, cache_tree.value, cache, true))
    }

    constructor (hash: Hash, db: ObjectDb)
      ensures Valid() && cache == [] && this.hash == hash && this.db == db
    {
      this.hash, this.db, cache, cache_tree, cache_changed := hash, db, [], None, false;
    }

    /** An edit of the index at path, followed by cache_tree_invalidate_path. */
    method EditPath(after: seq<Entry>, path: string)
      requires Valid() && IndexOk(after) && Edited(cache, after, path)
      modifies this`cache, this`cache_tree, this`cache_changed
      ensures Valid() && cache == after
      ensures cache_tree == if old(cache_tree).None? then None else Some(Invalidate(old(cache_tree).value, path))
      ensures cache_changed == (old(cache_changed) || old(cache_tree).Some?)
    {
      hide Inv, IndexOk, Edited, Invalidate, Ordered;
      if cache_tree.Some? {
        InvOrdered(hash, cache_tree.value, cache, true);
        InvalidateKeeps(hash, cache_tree.value, cache, after, path, true);
        var it := DoInvalidatePath(cache_tree.value, path);
        cache_tree := Some(it);
        cache_changed := true;
      }
      cache := after;
    }

    /** cache_tree_update; the caller has made sure there is a tree. */
    method Update(missing_ok: bool, dryrun: bool) returns (r: int)
      requires Valid() && cache_tree.Some?
      modifies this`cache_tree, this`cache_changed, db
      ensures Valid() && cache_tree.Some? && (r == 0 || r == -1)
      ensures r == 0 ==> Agrees(hash, cache_tree.value, cache) && cache_changed && !NeighbourConflict(cache)
      ensures old(db.oids) <= db.oids
      ensures Complete(hash, old(db.oids), missing_ok, dryrun, cache) ==> r == 0
      ensures Trusted(old(db.oids), missing_ok, old(cache_tree).value, cache) && r == 0 ==>
        Writable(db.oids, missing_ok, cache) && Trusted(db.oids, missing_ok, cache_tree.value, cache)
    {
      hide Inv, IndexOk, Agrees, NeighbourConflict, Cut, Writable, Trusted;
      ghost var trusted := Trusted(db.oids, missing_ok, cache_tree.value, cache);
      var ok := VerifyCache(cache);
      if !ok { return -1; }
      WholeIndex(cache);
      var it, i := UpdateOne(hash, db, cache_tree.value, cache, "", missing_ok, dryrun);
      cache_tree := Some(it);
      if i < 0 { return i; }
      if trusted { WritableTrusted(hash, db.oids, missing_ok, it, cache); }
      cache_changed := true;
      r := 0;
    }

    /** The update of a tree kept over edits is the tree built from nothing for the same index. */
    method UpdateIsRebuild(missing_ok: bool, dryrun: bool) returns (r: int, rebuilt: Node, built: bool)
      requires Valid() && cache_tree.Some?
      modifies this`cache_tree, this`cache_changed, db
      ensures cache_tree.Some? && (r == 0 && built ==> Bared(cache_tree.value) == Bared(rebuilt))
      ensures built ==> rebuilt.entry_count == |cache| && Writable(db.oids, missing_ok, cache)
      ensures Complete(hash, old(db.oids), missing_ok, dryrun, cache) ==> r == 0 && built
    {
      hide Inv, IndexOk, Agrees, NeighbourConflict, Cut, Writable;
      assert forall oids :: Trusted(oids, missing_ok, EMPTY, cache);
      ghost var oids := db.oids;
      r := Update(missing_ok, dryrun);
      EmptyInv(hash, cache);
      WholeIndex(cache);
      StillWritable(oids, db.oids, missing_ok, cache);
      var i;
      rebuilt, i := UpdateOne(hash, db, EMPTY, cache, "", missing_ok, dryrun);
      built := i >= 0;
      if built {
        AgreesCount(hash, rebuilt, cache);
        if r == 0 { AgreeUnique(hash, cache_tree.value, rebuilt, cache); }
      }
    }
  }

  lemma StillWritable(a: set<Oid>, b: set<Oid>, missing_ok: bool, es: seq<Entry>)
    requires a <= b
    ensures Writable(a, missing_ok, es) ==> Writable(b, missing_ok, es)
  {
  }

  /** Seen from the root the index is itself. */
  lemma {:induction false} WholeIndex(es: seq<Entry>)
    requires IndexOk(es)
    ensures Cut(es, "") == es
  {
    forall i | 0 <= i < |es| ensures Below(es[i].name, "") && es[i].name[0..] == es[i].name { assert es[i] in es; }
    WholeRun(es);
    forall i | 0 <= i < |es| ensures Cut(es, "")[i] == es[i] { CutAt(es, "", i); }
  }

  lemma {:induction false} WholeRun(es: seq<Entry>)
    requires forall i :: 0 <= i < |es| ==> Below(es[i].name, "")
    ensures RunLen(es, "") == |es|
  {
    if es != [] { WholeRun(es[1..]); }
  }
}
