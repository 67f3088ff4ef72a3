/**
 Which paths an archive holds (write_archive_entries, git-2.15.0/archive.c:240-300), said of the leaves of the tree
 and of export-ignore, not of the order in which directories are queued and written.
 */
module ArchiveListing {
  import opened Archive

  /** Going down from base through directories with these names, none of them ignored, the walk comes to leaf e. */
  ghost predicate Reached(ignore: Ignore, base: string, entries: seq<Entry>, dirs: seq<string>, e: Entry)
    decreases |dirs|
  {
    if dirs == [] then e in entries && e.Leaf?
    else
      exists d :: d in entries && Entered(ignore, base, d, dirs[0])
        && Reached(ignore, base + d.name + "/", d.entries, dirs[1..], e)
  }

  /** A directory of this name that is not ignored. */
  ghost predicate Entered(ignore: Ignore, base: string, d: Entry, name: string) {
    d.Dir? && d.name == name && !ignore(base + d.name + "/")
  }

  /** The path of a directory, with its slash. */
  ghost function PathOf(base: string, dirs: seq<string>): string
    decreases |dirs|
  {
    if dirs == [] then base else PathOf(base + dirs[0] + "/", dirs[1..])
  }

  /** The path of a leaf; a submodule's ends in a slash. */
  ghost function LeafIn(base: string, dirs: seq<string>, e: Entry): string
    requires e.Leaf?
  {
    PathOf(base, dirs) + e.name + if e.gitlink then "/" else ""
  }

  /** p is a leaf that the walk comes to, and is not ignored. */
  ghost predicate WrittenLeaf(ignore: Ignore, base: string, entries: seq<Entry>, p: string) {
    !ignore(p)
    && exists dirs, e: Entry :: e.Leaf? && Reached(ignore, base, entries, dirs, e) && p == LeafIn(base, dirs, e)
  }

  /** p is a directory on the way to a leaf that the walk comes to, be that leaf ignored or not. */
  ghost predicate WrittenDir(ignore: Ignore, base: string, entries: seq<Entry>, p: string) {
    exists dirs, e, k: nat ::
      0 < k <= |dirs| && Reached(ignore, base, entries, dirs, e) && p == PathOf(base, dirs[..k])
  }

  ghost predicate Written(ignore: Ignore, base: string, entries: seq<Entry>, p: string) {
    WrittenLeaf(ignore, base, entries, p) || WrittenDir(ignore, base, entries, p)
  }

  /** The walk comes to some leaf. */
  ghost predicate Somewhere(ignore: Ignore, base: string, entries: seq<Entry>) {
    exists dirs, e :: Reached(ignore, base, entries, dirs, e)
  }

  lemma ReachedConcat(ignore: Ignore, base: string, a: seq<Entry>, b: seq<Entry>, dirs: seq<string>, e: Entry)
    ensures Reached(ignore, base, a + b, dirs, e)
      <==> Reached(ignore, base, a, dirs, e) || Reached(ignore, base, b, dirs, e)
  {
    if dirs != [] {
      if Reached(ignore, base, a + b, dirs, e) {
        var d :| d in a + b && Entered(ignore, base, d, dirs[0])
          && Reached(ignore, base + d.name + "/", d.entries, dirs[1..], e);
        assert d in a || d in b;
      }
      if Reached(ignore, base, a, dirs, e) {
        var d :| d in a && Entered(ignore, base, d, dirs[0])
          && Reached(ignore, base + d.name + "/", d.entries, dirs[1..], e);
        assert d in a + b;
      }
      if Reached(ignore, base, b, dirs, e) {
        var d :| d in b && Entered(ignore, base, d, dirs[0])
          && Reached(ignore, base + d.name + "/", d.entries, dirs[1..], e);
        assert d in a + b;
      }
    }
  }

  lemma WrittenConcat(ignore: Ignore, base: string, a: seq<Entry>, b: seq<Entry>, p: string)
    ensures Written(ignore, base, a + b, p) <==> Written(ignore, base, a, p) || Written(ignore, base, b, p)
    ensures Somewhere(ignore, base, a + b) <==> Somewhere(ignore, base, a) || Somewhere(ignore, base, b)
  {
    hide Reached, PathOf;
    forall dirs, e
      ensures Reached(ignore, base, a + b, dirs, e)
        <==> Reached(ignore, base, a, dirs, e) || Reached(ignore, base, b, dirs, e) {
      ReachedConcat(ignore, base, a, b, dirs, e);
    }
  }

  /** A list of one directory is entered if that is not ignored. */
  lemma ReachedDir(ignore: Ignore, base: string, d: Entry, dirs: seq<string>, e: Entry)
    requires d.Dir?
    ensures Reached(ignore, base, [d], dirs, e) <==>
      dirs != [] && d.name == dirs[0] && !ignore(base + d.name + "/")
      && Reached(ignore, base + d.name + "/", d.entries, dirs[1..], e)
  {
    assert d in [d];
  }

  lemma ReachedLeaf(ignore: Ignore, base: string, l: Entry, dirs: seq<string>, e: Entry)
    requires l.Leaf?
    ensures Reached(ignore, base, [l], dirs, e) <==> dirs == [] && e == l
  {
    assert l in [l];
  }

  lemma OneLeaf(ignore: Ignore, base: string, l: Entry, p: string)
    requires l.Leaf?
    ensures Written(ignore, base, [l], p) <==> p == LeafIn(base, [], l) && !ignore(p)
    ensures Somewhere(ignore, base, [l])
  {
    hide Reached, LeafIn;
    forall dirs, e ensures Reached(ignore, base, [l], dirs, e) <==> dirs == [] && e == l {
      ReachedLeaf(ignore, base, l, dirs, e);
    }
    assert Reached(ignore, base, [l], [], l);
  }

  /** A directory is written if the walk comes to a leaf below it, and so is what is written below. */
  lemma OneDir(ignore: Ignore, base: string, d: Entry, p: string)
    requires d.Dir?
    ensures var inner := base + d.name + "/";
      && (Somewhere(ignore, base, [d]) <==> !ignore(inner) && Somewhere(ignore, inner, d.entries))
      && (Written(ignore, base, [d], p) <==>
        !ignore(inner) && Somewhere(ignore, inner, d.entries) && (p == inner || Written(ignore, inner, d.entries, p)))
  {
    hide Reached, PathOf, Written;
    var inner := base + d.name + "/";
    forall dirs, e ensures Reached(ignore, base, [d], dirs, e) <==>
      dirs != [] && d.name == dirs[0] && !ignore(inner) && Reached(ignore, inner, d.entries, dirs[1..], e) {
      ReachedDir(ignore, base, d, dirs, e);
    }
    forall dirs, e | !ignore(inner) && Reached(ignore, inner, d.entries, dirs, e)
      ensures Reached(ignore, base, [d], [d.name] + dirs, e) {
      assert ([d.name] + dirs)[1..] == dirs;
    }
    if Written(ignore, base, [d], p) { DirDown(ignore, base, d, p); }
    DirUp(ignore, base, d, p);
  }

  lemma PathStep(base: string, c: string, dirs: seq<string>)
    ensures PathOf(base, [c] + dirs) == PathOf(base + c + "/", dirs) && PathOf(base, []) == base
  {
    assert ([c] + dirs)[1..] == dirs;
  }

  lemma DirDown(ignore: Ignore, base: string, d: Entry, p: string)
    requires d.Dir? && Written(ignore, base, [d], p)
    ensures var inner := base + d.name + "/";
      !ignore(inner) && Somewhere(ignore, inner, d.entries) && (p == inner || Written(ignore, inner, d.entries, p))
  {
    hide Reached, PathOf;
    var inner := base + d.name + "/";
    if WrittenLeaf(ignore, base, [d], p) {
      var dirs, e: Entry :| e.Leaf? && Reached(ignore, base, [d], dirs, e) && p == LeafIn(base, dirs, e);
      ReachedDir(ignore, base, d, dirs, e);
      assert dirs == [d.name] + dirs[1..];
      PathStep(base, d.name, dirs[1..]);
      assert p == LeafIn(inner, dirs[1..], e);
    } else {
      var dirs, e, k: nat :|
        0 < k <= |dirs| && Reached(ignore, base, [d], dirs, e) && p == PathOf(base, dirs[..k]);
      ReachedDir(ignore, base, d, dirs, e);
      assert dirs[..k] == [d.name] + dirs[1..][..k - 1];
      PathStep(base, d.name, dirs[1..][..k - 1]);
      PathStep(inner, "", []);
      if k == 1 { assert dirs[1..][..0] == []; }
    }
  }

  lemma DirUp(ignore: Ignore, base: string, d: Entry, p: string)
    requires d.Dir?
    ensures var inner := base + d.name + "/";
      !ignore(inner) && Somewhere(ignore, inner, d.entries) && (p == inner || Written(ignore, inner, d.entries, p))
      ==> Written(ignore, base, [d], p)
  {
    hide Reached, PathOf;
    var inner := base + d.name + "/";
    if !ignore(inner) && p == inner && Somewhere(ignore, inner, d.entries) {
      var dirs, e :| Reached(ignore, inner, d.entries, dirs, e);
      OneDeeper(ignore, base, d, dirs, e);
      assert ([d.name] + dirs)[..1] == [d.name] + [];
      PathStep(base, d.name, []);
      PathStep(inner, "", []);
      assert WrittenDir(ignore, base, [d], p);
    } else if !ignore(inner) && WrittenLeaf(ignore, inner, d.entries, p) {
      var dirs, e: Entry :| e.Leaf? && Reached(ignore, inner, d.entries, dirs, e) && p == LeafIn(inner, dirs, e);
      OneDeeper(ignore, base, d, dirs, e);
      PathStep(base, d.name, dirs);
      assert p == LeafIn(base, [d.name] + dirs, e);
    } else if !ignore(inner) && WrittenDir(ignore, inner, d.entries, p) {
      var dirs, e, k: nat :|
        0 < k <= |dirs| && Reached(ignore, inner, d.entries, dirs, e) && p == PathOf(inner, dirs[..k]);
      OneDeeper(ignore, base, d, dirs, e);
      assert ([d.name] + dirs)[..k + 1] == [d.name] + dirs[..k];
      PathStep(base, d.name, dirs[..k]);
    }
  }

  lemma OneDeeper(ignore: Ignore, base: string, d: Entry, dirs: seq<string>, e: Entry)
    requires d.Dir? && !ignore(base + d.name + "/") && Reached(ignore, base + d.name + "/", d.entries, dirs, e)
    ensures Reached(ignore, base, [d], [d.name] + dirs, e)
  {
    hide Reached;
    ReachedDir(ignore, base, d, [d.name] + dirs, e);
    assert ([d.name] + dirs)[1..] == dirs;
  }

  lemma NoneWritten(ignore: Ignore, base: string, p: string)
    ensures !Written(ignore, base, [], p) && !Somewhere(ignore, base, [])
  {
    forall dirs, e ensures !Reached(ignore, base, [], dirs, e) {}
  }

  /**
   A path is in the archive if and only if it is a leaf that the walk comes to and that is not ignored, or a
   directory on the way to any leaf that the walk comes to.
   */
  lemma {:induction false} ListingIs(ignore: Ignore, base: string, entries: seq<Entry>, p: string)
    ensures p in Listing(ignore, base, entries) <==> Written(ignore, base, entries, p)
    ensures Reaches(ignore, base, entries) <==> Somewhere(ignore, base, entries)
    decreases entries, 1
  {
    hide Written, Somewhere, ReachesIn, ListingOf;
    if entries == [] {
      NoneWritten(ignore, base, p);
    } else {
      var n := |entries| - 1;
      ListingIs(ignore, base, entries[..n], p);
      ListingOfIs(ignore, base, entries[n], p);
      WrittenConcat(ignore, base, entries[..n], [entries[n]], p);
      assert entries == entries[..n] + [entries[n]] && entries[..n + 1] == entries;
      OneMore(ignore, base, entries, n);
    }
  }

  lemma {:induction false} ListingOfIs(ignore: Ignore, base: string, e: Entry, p: string)
    ensures p in ListingOf(ignore, base, e) <==> Written(ignore, base, [e], p)
    ensures ReachesIn(ignore, base, e) <==> Somewhere(ignore, base, [e])
    decreases e, 0
  {
    hide Written, Somewhere, Listing, Reaches;
    if e.Leaf? {
      OneLeaf(ignore, base, e, p);
      assert LeafIn(base, [], e) == LeafPath(base, e);
    } else {
      OneDir(ignore, base, e, p);
      ListingIs(ignore, base + e.name + "/", e.entries, p);
    }
  }

  /** The entry for a prefix that ends in slashes ends in one; all before them is kept. */
  lemma {:induction false} TrimmedIs(s: string)
    requires EndsInSlash(s)
    ensures var r := Trimmed(s);
      && Starts(r, s) && EndsInSlash(r) && (forall i :: |r| <= i < |s| ==> s[i] == '/')
      && (|r| == 1 || r[|r| - 2] != '/')
  {
    if |s| > 1 && s[|s| - 2] == '/' {
      TrimmedIs(s[..|s| - 1]);
      assert s[..|s| - 1][..|Trimmed(s)|] == s[..|Trimmed(s)|];
    }
  }
}
