/**
 Directories in an archive are written only when something in them is (queue_directory, write_directory,
 queue_or_write_archive_entry, git-2.15.0/archive.c), over the walk of read_tree_1 (git-2.15.0/tree.c).
 */
module Archive {

  /** A tree as the walk sees it; a leaf is a file, a symbolic link or a submodule. */
  datatype Entry = Leaf(name: string, gitlink: bool) | Dir(name: string, entries: seq<Entry>)

  /** Does export-ignore hold for a path?  Directories and submodules are asked for with a slash at the end. */
  type Ignore = string -> bool

  function DirPath(base: string, name: string): string {
    base + name + "/"
  }

  function LeafPath(base: string, e: Entry): string
    requires e.Leaf?
  {
    if e.gitlink then base + e.name + "/" else base + e.name
  }

  predicate Starts(p: string, s: string) {
    |p| <= |s| && s[..|p|] == p
  }

  // ---------------------------------------------------------------------------------------------
  // What the archive holds

  /** The walk reaches an entry that is not a directory. */
  predicate Reaches(ignore: Ignore, base: string, entries: seq<Entry>)
    decreases entries, 1
  {
    exists i :: 0 <= i < |entries| && ReachesIn(ignore, base, entries[i])
  }

  predicate ReachesIn(ignore: Ignore, base: string, e: Entry)
    decreases e, 0
  {
    e.Leaf? || (!ignore(DirPath(base, e.name)) && Reaches(ignore, DirPath(base, e.name), e.entries))
  }

  /** Parents before children: leaves that are not ignored, directories below which the walk reaches a leaf. */
  function Listing(ignore: Ignore, base: string, entries: seq<Entry>): seq<string>
    decreases entries, 1
  {
    if entries == [] then [] else
    var n := |entries| - 1;
    Listing(ignore, base, entries[..n]) + ListingOf(ignore, base, entries[n])
  }

  function ListingOf(ignore: Ignore, base: string, e: Entry): seq<string>
    decreases e, 0
  {
    if e.Leaf? then (if ignore(LeafPath(base, e)) then [] else [LeafPath(base, e)])
    else if ReachesIn(ignore, base, e) then [DirPath(base, e.name)] + Listing(ignore, DirPath(base, e.name), e.entries)
    else []
  }

  lemma {:induction false} NothingReached(ignore: Ignore, base: string, entries: seq<Entry>)
    requires !Reaches(ignore, base, entries)
    ensures Listing(ignore, base, entries) == []
    decreases |entries|
  {
    hide Reaches, ReachesIn;
    if entries != [] {
      var n := |entries| - 1;
      OneMore(ignore, base, entries, n);
      assert entries[..n + 1] == entries;
      NothingReached(ignore, base, entries[..n]);
      NotReachedIn(ignore, base, entries[n]);
    }
  }

  lemma OneMore(ignore: Ignore, base: string, entries: seq<Entry>, n: nat)
    requires n < |entries|
    ensures Reaches(ignore, base, entries[..n + 1]) <==>
      Reaches(ignore, base, entries[..n]) || ReachesIn(ignore, base, entries[n])
    ensures Listing(ignore, base, entries[..n + 1])
      == Listing(ignore, base, entries[..n]) + ListingOf(ignore, base, entries[n])
  {
    hide ReachesIn, ListingOf;
    var more := entries[..n + 1];
    assert more[..n] == entries[..n];
    if Reaches(ignore, base, entries[..n]) {
      var i :| 0 <= i < n && ReachesIn(ignore, base, entries[..n][i]);
      assert ReachesIn(ignore, base, more[i]);
    }
    if ReachesIn(ignore, base, entries[n]) { assert ReachesIn(ignore, base, more[n]); }
    if Reaches(ignore, base, more) {
      var i :| 0 <= i < n + 1 && ReachesIn(ignore, base, more[i]);
      if i < n { assert ReachesIn(ignore, base, entries[..n][i]); }
    }
  }

  // ---------------------------------------------------------------------------------------------
  // Properties of the listing

  ghost predicate PlainName(name: string) {
    name != "" && forall i :: 0 <= i < |name| ==> name[i] != '/'
  }

  /** Plain names, different within each directory. */
  ghost predicate WellNamed(entries: seq<Entry>)
    decreases entries
  {
    && (forall i :: 0 <= i < |entries| ==> PlainName(entries[i].name))
    && (forall i, j :: 0 <= i < j < |entries| ==> entries[i].name != entries[j].name)
    && (forall i :: 0 <= i < |entries| && entries[i].Dir? ==> WellNamed(entries[i].entries))
  }

  /** A path that belongs to the entry of this name. */
  ghost predicate Under(p: string, base: string, name: string) {
    p == base + name || Starts(DirPath(base, name), p)
  }

  lemma {:induction false} ListedUnder(ignore: Ignore, base: string, e: Entry, p: string)
    requires p in ListingOf(ignore, base, e)
    ensures Under(p, base, e.name)
    decreases e, 0
  {
    if e.Dir? && p != DirPath(base, e.name) {
      ListedBelow(ignore, DirPath(base, e.name), e.entries, p);
    }
  }

  lemma {:induction false} ListedBelow(ignore: Ignore, base: string, entries: seq<Entry>, p: string)
    requires p in Listing(ignore, base, entries)
    ensures Starts(base, p)
    ensures exists i ::
      0 <= i < |entries| && p in ListingOf(ignore, base, entries[i]) && Under(p, base, entries[i].name)
    decreases entries, 1
  {
    var n := |entries| - 1;
    if p in Listing(ignore, base, entries[..n]) {
      ListedBelow(ignore, base, entries[..n], p);
      var i :| 0 <= i < n && p in ListingOf(ignore, base, entries[..n][i]) && Under(p, base, entries[..n][i].name);
      assert entries[..n][i] == entries[i];
    } else {
      ListedUnder(ignore, base, entries[n], p);
      if Starts(DirPath(base, entries[n].name), p) {
        assert p[..|base|] == p[..|DirPath(base, entries[n].name)|][..|base|];
      }
    }
  }

  /** A path belongs to one name only. */
  lemma OneName(p: string, base: string, a: string, b: string)
    requires PlainName(a) && PlainName(b) && Under(p, base, a) && Under(p, base, b)
    ensures a == b
  {
    UnderName(p, base, a);
    UnderName(p, base, b);
  }

  lemma UnderName(p: string, base: string, a: string)
    requires Under(p, base, a)
    ensures |base| + |a| <= |p| && p[|base|..|base| + |a|] == a && forall i :: 0 <= i < |a| ==> p[|base| + i] == a[i]
    ensures |p| > |base| + |a| ==> p[|base| + |a|] == '/'
  {
    if p != base + a {
      var d := DirPath(base, a);
      assert p[..|d|] == d;
      assert forall i :: 0 <= i < |d| ==> p[i] == d[i];
    }
  }

  ghost predicate Once(paths: seq<string>) {
    forall i, j :: 0 <= i < j < |paths| ==> paths[i] != paths[j]
  }

  /** Nothing is listed twice. */
  lemma {:induction false} ListedOnce(ignore: Ignore, base: string, entries: seq<Entry>)
    requires WellNamed(entries)
    ensures Once(Listing(ignore, base, entries))
    decreases entries, 1
  {
    if entries != [] {
      var n := |entries| - 1;
      var before, last := Listing(ignore, base, entries[..n]), ListingOf(ignore, base, entries[n]);
      ListedOnce(ignore, base, entries[..n]);
      ListedOnceIn(ignore, base, entries[n]);
      forall p | p in before ensures p !in last {
        if p in last {
          ListedUnder(ignore, base, entries[n], p);
          ListedBelow(ignore, base, entries[..n], p);
          var i :| 0 <= i < n && p in ListingOf(ignore, base, entries[..n][i]) && Under(p, base, entries[..n][i].name);
          OneName(p, base, entries[i].name, entries[n].name);
        }
      }
      OnceAppend(before, last);
    }
  }

  lemma {:induction false} ListedOnceIn(ignore: Ignore, base: string, e: Entry)
    requires PlainName(e.name) && (e.Dir? ==> WellNamed(e.entries))
    ensures Once(ListingOf(ignore, base, e))
    decreases e, 0
  {
    if e.Dir? && ReachesIn(ignore, base, e) {
      var d := DirPath(base, e.name);
      ListedOnce(ignore, d, e.entries);
      if d in Listing(ignore, d, e.entries) {
        ListedBelow(ignore, d, e.entries, d);
        var i :| 0 <= i < |e.entries| && d in ListingOf(ignore, d, e.entries[i]) && Under(d, d, e.entries[i].name);
        assert PlainName(e.entries[i].name);
        UnderName(d, d, e.entries[i].name);
      }
      OnceAppend([d], Listing(ignore, d, e.entries));
    }
  }

  lemma OnceAppend(a: seq<string>, b: seq<string>)
    requires Once(a) && Once(b) && forall p :: p in a ==> p !in b
    ensures Once(a + b)
  {
    forall i, j | 0 <= i < j < |a + b| ensures (a + b)[i] != (a + b)[j] {
      if i < |a| <= j { assert a[i] in a; }
    }
  }

  /** Every directory on the way to p, below base, is listed before position k. */
  ghost predicate ParentsBefore(paths: seq<string>, base: string, k: nat)
    requires k < |paths|
  {
    forall c :: |base| < c < |paths[k]| && paths[k][c - 1] == '/' ==> paths[k][..c] in paths[..k]
  }

  lemma NoSlashInName(p: string, base: string, name: string, c: nat)
    requires PlainName(name) && Under(p, base, name) && |base| < c < |p| && p[c - 1] == '/'
    ensures c >= |DirPath(base, name)| && Starts(DirPath(base, name), p)
  {
    UnderName(p, base, name);
    var i := c - 1 - |base|;
    assert p[|base| + i] == '/';
  }

  /** Directories come before their contents. */
  lemma {:induction false} ParentsListed(ignore: Ignore, base: string, entries: seq<Entry>, k: nat)
    requires WellNamed(entries) && k < |Listing(ignore, base, entries)|
    ensures ParentsBefore(Listing(ignore, base, entries), base, k)
    decreases entries, 1
  {
    var n := |entries| - 1;
    var before, last, all := Listing(ignore, base, entries[..n]), ListingOf(ignore, base, entries[n]), Listing(ignore,
                                     base, entries);
    assert all == before + last;
    if k < |before| {
      ParentsListed(ignore, base, entries[..n], k);
      assert all[..k] == before[..k];
    } else {
      ParentsListedIn(ignore, base, entries[n], k - |before|);
      assert all[k] == last[k - |before|];
      assert all[..k] == before + last[..k - |before|];
    }
  }

  lemma {:induction false} ParentsListedIn(ignore: Ignore, base: string, e: Entry, k: nat)
    requires PlainName(e.name) && (e.Dir? ==> WellNamed(e.entries)) && k < |ListingOf(ignore, base, e)|
    ensures ParentsBefore(ListingOf(ignore, base, e), base, k)
    decreases e, 0
  {
    var all := ListingOf(ignore, base, e);
    var p, d := all[k], DirPath(base, e.name);
    ListedUnder(ignore, base, e, p);
    UnderName(p, base, e.name);
    forall c | |base| < c < |p| && p[c - 1] == '/' ensures p[..c] in all[..k] {
      NoSlashInName(p, base, e.name, c);
      assert e.Dir?;
      var inner := Listing(ignore, d, e.entries);
      assert all == [d] + inner;
      assert k > 0;
      ListedBelow(ignore, d, e.entries, p);
      if c == |d| {
        assert p[..c] == d == all[..k][0];
      } else {
        ParentsListed(ignore, d, e.entries, k - 1);
        assert inner[k - 1] == p;
        assert p[..c] in inner[..k - 1];
        assert all[..k] == [d] + inner[..k - 1];
      }
    }
  }

  // ---------------------------------------------------------------------------------------------
  // The code

  /** struct directory: the path with its slash. */
  datatype Directory = Directory(path: string, baselen: nat)

  function Paths(prefix: string, ds: seq<Directory>): seq<string> {
    if ds == [] then [] else Paths(prefix, ds[..|ds| - 1]) + [prefix + ds[|ds| - 1].path]
  }

  function Prefixed(prefix: string, paths: seq<string>): (r: seq<string>)
    ensures |r| == |paths| && forall i :: 0 <= i < |paths| ==> r[i] == prefix + paths[i]
  {
    if paths == [] then [] else [prefix + paths[0]] + Prefixed(prefix, paths[1..])
  }

  /** The pending directories lead to base: each is on its way, each deeper than the one before. */
  ghost predicate Chain(ds: seq<Directory>, base: string) {
    && (forall i :: 0 <= i < |ds| ==> Starts(ds[i].path, base) && Proper(ds[i]))
    && (forall i, j :: 0 <= i < j < |ds| ==> |ds[i].path| < |ds[j].path|)
  }

  /** A directory entry as queue_directory makes it. */
  ghost predicate Proper(d: Directory) {
    d.baselen < |d.path| && EndsInSlash(d.path)
  }

  predicate EndsInSlash(s: string) {
    s != "" && s[|s| - 1] == '/'
  }

  /** Directories deeper than base. */
  ghost predicate Deeper(ds: seq<Directory>, base: string) {
    forall i :: 0 <= i < |ds| ==> |ds[i].path| > |base|
  }

  /** A prefix without superfluous slashes at its end. */
  function Trimmed(s: string): string {
    if |s| > 1 && s[|s| - 1] == '/' && s[|s| - 2] == '/' then Trimmed(s[..|s| - 1]) else s
  }

  function PrefixEntry(prefix: string): seq<string> {
    if EndsInSlash(prefix) then [Trimmed(prefix)] else []
  }

  class Archiver {
    const prefix: string
    const ignore: Ignore
    var bottom: seq<Directory>
    var written: seq<string>

    constructor (prefix: string, ignore: Ignore)
      ensures this.prefix == prefix && this.ignore == ignore && bottom == [] && written == []
    {
      this.prefix, this.ignore := prefix, ignore;
      bottom, written := [], [];
    }

    /** write_archive_entry, whose writing succeeds. */
    method WriteArchiveEntry(base: string, filename: string, isDir: bool, gitlink: bool)
      modifies this`written
      ensures var path := base + filename + if isDir || gitlink then "/" else "";
        written == old(written) + if !isDir && ignore(path) then [] else [prefix + path]
    {
      var path := prefix + base + filename;
      if isDir || gitlink {
        path := path + "/";
      }
      var pathWithoutPrefix := path[|prefix|..];
      assert pathWithoutPrefix == base + filename + if isDir || gitlink then "/" else "";
      if !isDir && ignore(pathWithoutPrefix) {
        return;
      }
      assert path == prefix + pathWithoutPrefix;
      written := written + [path];
    }

    /** write_directory: writes every pending directory, the outermost first, and forgets them. */
    method WriteDirectory()
      requires forall i :: 0 <= i < |bottom| ==> Proper(bottom[i])
      modifies this`bottom, this`written
      ensures bottom == [] && written == old(written) + Paths(prefix, old(bottom))
      decreases |bottom|
    {
      if bottom == [] {
        return;
      }
      var d := bottom[|bottom| - 1];
      bottom := bottom[..|bottom| - 1];
      WriteDirectory();
      var path := d.path[..|d.path| - 1];
      assert path[..d.baselen] + path[d.baselen..] + "/" == d.path;
      WriteArchiveEntry(path[..d.baselen], path[d.baselen..], true, false);
    }

    /** queue_directory */
    method QueueDirectory(base: string, filename: string)
      modifies this`bottom
      ensures bottom == old(bottom) + [Directory(DirPath(base, filename), |base|)]
    {
      bottom := bottom + [Directory(base + filename + "/", |base|)];
    }

    /**
     queue_or_write_archive_entry: forgets the directories the walk has left, so that a chain of ancestors
     stays; queues a directory; and before a leaf writes what is pending.
     */
    method QueueOrWriteArchiveEntry(base: string, e: Entry, ghost pending: seq<Directory>) returns (recurse: bool)
      requires Chain(pending, base) && pending <= bottom && Deeper(bottom[|pending|..], base)
      modifies this`bottom, this`written
      ensures recurse <==> e.Dir? && !ignore(DirPath(base, e.name))
      ensures recurse ==> bottom == pending + [Directory(DirPath(base, e.name), |base|)] && written == old(written)
      ensures e.Dir? && !recurse ==> bottom == pending && written == old(written)
      ensures e.Leaf? ==>
        bottom == [] && written == old(written) + Paths(prefix, pending) + Prefixed(prefix, ListingOf(ignore, base, e))
    {
      PopLeft(base, pending);
      if e.Dir? {
        if ignore(base + e.name + "/") {
          return false;
        }
        QueueDirectory(base, e.name);
        return true;
      }
      WriteLeaf(base, e);
      return false;
    }

    /** The loop that forgets the directories that are not on the way to base. */
    method PopLeft(base: string, ghost pending: seq<Directory>)
      requires Chain(pending, base) && pending <= bottom && Deeper(bottom[|pending|..], base)
      modifies this`bottom
      ensures bottom == pending
    {
      DeeperAt(bottom, |pending|, base);
      while bottom != [] && !Starts(bottom[|bottom| - 1].path, base)
        invariant pending <= bottom
        invariant forall i :: |pending| <= i < |bottom| ==> |bottom[i].path| > |base|
        decreases |bottom|
      {
        bottom := bottom[..|bottom| - 1];
      }
      assert |bottom| == |pending|;
    }

    /** A leaf, after everything that is pending. */
    method WriteLeaf(base: string, e: Entry)
      requires e.Leaf? && forall i :: 0 <= i < |bottom| ==> Proper(bottom[i])
      modifies this`bottom, this`written
      ensures bottom == []
      ensures written == old(written) + Paths(prefix, old(bottom)) + Prefixed(prefix, ListingOf(ignore, base, e))
    {
      hide Paths, Prefixed;
      WriteDirectory();
      ghost var w := written;
      WriteArchiveEntry(base, e.name, false, e.gitlink);
      assert LeafPath(base, e) == base + e.name + if e.gitlink then "/" else "";
      assert Prefixed(prefix, ListingOf(ignore, base, e)) == if ignore(LeafPath(base, e)) then []
        else [prefix + LeafPath(base, e)];
      assert written == w + Prefixed(prefix, ListingOf(ignore, base, e));
    }

    /**
     read_tree_1 with that callback: the archive gets the listing, after the directories that were pending
     when the first leaf was reached.
     */
    method ReadTree(base: string, entries: seq<Entry>, ghost pending: seq<Directory>)
      requires bottom == pending && Chain(pending, base)
      modifies this`bottom, this`written
      ensures written == old(written) +
        if Reaches(ignore, base, entries) then Paths(prefix, pending) + Prefixed(prefix, Listing(ignore, base, entries))
        else []
      ensures var left := if Reaches(ignore, base, entries) then [] else pending;
        left <= bottom && Deeper(bottom[|left|..], base)
      decreases entries
    {
      hide Reaches, ReachesIn, Listing, ListingOf, Paths, Prefixed, DirPath, Chain, Starts, Output, Rest, Deeper;
      var i := 0;
      assert entries[..0] == [] && bottom[|bottom|..] == [];
      NothingYet(base, pending);
      while i < |entries|
        invariant 0 <= i <= |entries|
        invariant written == old(written) + Output(base, entries[..i], pending)
        invariant Rest(base, entries[..i], pending) <= bottom
        invariant Deeper(bottom[|Rest(base, entries[..i], pending)|..], base)
      {
        var e := entries[i];
        ghost var ahead := Rest(base, entries[..i], pending);
        RestChain(base, entries[..i], pending);
        ghost var before := written;
        var recurse := QueueOrWriteArchiveEntry(base, e, ahead);
        InEntry(ignore, base, e);
        PathsNil(prefix);
        if recurse {
          ghost var d := Directory(DirPath(base, e.name), |base|);
          PushChain(ahead, base, e.name);
          ReadTree(base + e.name + "/", e.entries, bottom);
          PathsPush(prefix, ahead, d, Listing(ignore, DirPath(base, e.name), e.entries));
          DeeperThan(ahead, d, bottom, base, e.name);
        }
        assert written == before +
          if ReachesIn(ignore, base, e) then Paths(prefix, ahead) + Prefixed(prefix, ListingOf(ignore, base, e))
          else [];
        OutputStep(base, entries, i, pending);
        DeeperNil(base);
        assert bottom[|bottom|..] == [] && bottom[0..] == bottom;
        i := i + 1;
      }
      assert entries[..i] == entries;
      WholeOutput(base, entries, pending);
    }

    /** The loop that leaves one slash at the end of the prefix. */
    method TrimPrefix() returns (len: nat)
      requires EndsInSlash(prefix)
      ensures len <= |prefix| && prefix[..len] == Trimmed(prefix)
    {
      len := |prefix|;
      assert prefix[..len] == prefix;
      while len > 1 && prefix[len - 2] == '/'
        invariant 1 <= len <= |prefix| && prefix[len - 1] == '/' && Trimmed(prefix[..len]) == Trimmed(prefix)
      {
        assert prefix[..len][..len - 1] == prefix[..len - 1];
        len := len - 1;
      }
    }

    /** write_archive_entries: an entry for the prefix, if that is a directory, and then the tree. */
    method WriteArchiveEntries(entries: seq<Entry>)
      requires bottom == []
      modifies this`bottom, this`written
      ensures bottom == []
      ensures written == old(written) + PrefixEntry(prefix) + Prefixed(prefix, Listing(ignore, "", entries))
    {
      hide Listing, Reaches, Paths, Prefixed;
      if |prefix| > 0 && prefix[|prefix| - 1] == '/' {
        var len := TrimPrefix();
        written := written + [prefix[..len]];
      }
      ReadTree("", entries, []);
      PathsNil(prefix);
      if !Reaches(ignore, "", entries) { NothingReached(ignore, "", entries); }
      while bottom != []
        invariant written == old(written) + PrefixEntry(prefix) + Prefixed(prefix, Listing(ignore, "", entries))
        decreases |bottom|
      {
        bottom := bottom[..|bottom| - 1];
      }
    }

    lemma NothingYet(base: string, pending: seq<Directory>)
      ensures Output(base, [], pending) == [] && Rest(base, [], pending) == pending && Deeper([], base)
    {
    }

    lemma WholeOutput(base: string, entries: seq<Entry>, pending: seq<Directory>)
      ensures Output(base, entries, pending) ==
        if Reaches(ignore, base, entries) then Paths(prefix, pending) + Prefixed(prefix, Listing(ignore, base, entries))
        else []
      ensures Rest(base, entries, pending) == if Reaches(ignore, base, entries) then [] else pending
    {
    }

    lemma RestChain(base: string, entries: seq<Entry>, pending: seq<Directory>)
      requires Chain(pending, base)
      ensures Chain(Rest(base, entries, pending), base)
    {
    }

    /** One more entry. */
    lemma OutputStep(base: string, entries: seq<Entry>, n: nat, pending: seq<Directory>)
      requires n < |entries|
      ensures Output(base, entries[..n + 1], pending) == Output(base, entries[..n], pending) +
        if ReachesIn(ignore, base, entries[n])
        then Paths(prefix, Rest(base, entries[..n], pending)) + Prefixed(prefix, ListingOf(ignore, base, entries[n]))
        else []
      ensures Rest(base, entries[..n + 1], pending) == if ReachesIn(ignore, base, entries[n]) then []
        else Rest(base, entries[..n], pending)
    {
      hide Reaches, ReachesIn, Listing, ListingOf, Paths, Prefixed;
      OneMore(ignore, base, entries, n);
      PathsNil(prefix);
      PrefixedAppend(prefix, Listing(ignore, base, entries[..n]), ListingOf(ignore, base, entries[n]));
      if !Reaches(ignore, base, entries[..n]) { NothingReached(ignore, base, entries[..n]); }
      NotReachedIn(ignore, base, entries[n]);
    }

    /** What a walk writes. */
    ghost function Output(base: string, entries: seq<Entry>, pending: seq<Directory>): seq<string>
    {
      if Reaches(ignore, base, entries) then Paths(prefix, pending) + Prefixed(prefix, Listing(ignore, base, entries))
        else []
    }

    ghost function Rest(base: string, entries: seq<Entry>, pending: seq<Directory>): seq<Directory>
    {
      if Reaches(ignore, base, entries) then [] else pending
    }
  }

  lemma PathsNil(prefix: string)
    ensures Paths(prefix, []) == [] && Prefixed(prefix, []) == []
  {
  }

  lemma PrefixedAppend(prefix: string, a: seq<string>, b: seq<string>)
    ensures Prefixed(prefix, a + b) == Prefixed(prefix, a) + Prefixed(prefix, b)
  {
    hide Prefixed;
  }

  lemma NotReachedIn(ignore: Ignore, base: string, e: Entry)
    ensures !ReachesIn(ignore, base, e) ==> ListingOf(ignore, base, e) == []
  {
  }

  lemma InEntry(ignore: Ignore, base: string, e: Entry)
    ensures e.Leaf? ==> ReachesIn(ignore, base, e)
    ensures e.Dir? ==> DirPath(base, e.name) == base + e.name + "/"
    ensures e.Dir? && ignore(DirPath(base, e.name)) ==> !ReachesIn(ignore, base, e)
    ensures e.Dir? && !ignore(DirPath(base, e.name)) ==>
      ReachesIn(ignore, base, e) == Reaches(ignore, DirPath(base, e.name), e.entries)
    ensures e.Dir? && ReachesIn(ignore, base, e) ==>
      ListingOf(ignore, base, e) == [DirPath(base, e.name)] + Listing(ignore, DirPath(base, e.name), e.entries)
  {
  }

  lemma PathsPush(prefix: string, ds: seq<Directory>, d: Directory, rest: seq<string>)
    ensures Paths(prefix, ds + [d]) + Prefixed(prefix, rest) == Paths(prefix, ds) + Prefixed(prefix, [d.path] + rest)
  {
    assert (ds + [d])[..|ds|] == ds;
    assert ([d.path] + rest)[1..] == rest;
  }

  lemma PushChain(ds: seq<Directory>, base: string, name: string)
    requires Chain(ds, base)
    ensures Chain(ds + [Directory(DirPath(base, name), |base|)], DirPath(base, name))
  {
    var d := DirPath(base, name);
    assert d[..|base|] == base;
    forall i | 0 <= i < |ds| ensures Starts(ds[i].path, d) {
      assert d[..|ds[i].path|] == base[..|ds[i].path|];
    }
  }

  lemma DeeperAt(bottom: seq<Directory>, k: nat, base: string)
    requires k <= |bottom| && Deeper(bottom[k..], base)
    ensures forall i :: k <= i < |bottom| ==> |bottom[i].path| > |base|
  {
    forall i | k <= i < |bottom| ensures |bottom[i].path| > |base| { assert bottom[i] == bottom[k..][i - k]; }
  }

  lemma DeeperNil(base: string)
    ensures Deeper([], base)
  {
  }

  /** What a subdirectory leaves pending is deeper than where the walk goes on. */
  lemma DeeperThan(ahead: seq<Directory>, d: Directory, bottom: seq<Directory>, base: string, name: string)
    requires d.path == DirPath(base, name)
    ensures Deeper(bottom, d.path) ==> Deeper(bottom, base)
    ensures ahead + [d] <= bottom && Deeper(bottom[|ahead + [d]|..], d.path) ==>
      ahead <= bottom && Deeper(bottom[|ahead|..], base)
  {
    if ahead + [d] <= bottom && Deeper(bottom[|ahead + [d]|..], d.path) {
      assert ahead == (ahead + [d])[..|ahead|];
      assert bottom[|ahead|..] == [d] + bottom[|ahead + [d]|..];
    }
  }
}
