/**
 update_one and cache_tree_update (git-2.15.0/cache-tree.c): bringing a partly invalid tree up to date.
 */
module CacheTreeUpdate {
  import opened PathNames
  import opened CacheTree
  import opened CacheTreeInvalidate

  const NULL_OID: Oid := "\0\0\0\0\0\0\0\0\0\0\0\0\0\0\0\0\0\0\0\0"

  /** The object database, as the set of ids that has_sha1_file finds. */
  class ObjectDb {
    var oids: set<Oid>
  }

  // ---------------------------------------------------------------------------------------------
  // Runs of a sorted index

  lemma {:induction false} UnderConcat(a: seq<Entry>, b: seq<Entry>, c: string)
    ensures Under(a + b, c) == Under(a, c) + Under(b, c)
  {
    hide HasPrefix;
    if a == [] {
      assert a + b == b;
    } else {
      assert a + b == [a[0]] + (a[1..] + b) && a == [a[0]] + a[1..];
      UnderCons(a[0], a[1..] + b, c);
      UnderCons(a[0], a[1..], c);
      UnderConcat(a[1..], b, c);
    }
  }

  lemma {:induction false} UnderNone(es: seq<Entry>, c: string)
    requires forall e :: e in es ==> !HasPrefix(e.name, c + "/")
    ensures Under(es, c) == []
  {
    if es != [] { UnderNone(es[1..], c); }
  }

  lemma {:induction false} UnderAll(es: seq<Entry>, c: string)
    requires forall e :: e in es ==> Below(e.name, c + "/")
    ensures (forall e :: e in es ==> |c| + 1 <= |e.name|) && Under(es, c) == Strip(es, |c| + 1)
  {
    if es != [] {
      UnderAll(es[1..], c);
      assert es[0] in es;
      assert Strip(es, |c| + 1) == [es[0].(name := es[0].name[|c| + 1..])] + Strip(es[1..], |c| + 1);
    }
  }

  /** A proper name with prefix c/ goes on after it. */
  lemma ProperBelow(e: Entry, c: string)
    requires e.name != [] && e.name[|e.name| - 1] != '/'
    ensures HasPrefix(e.name, c + "/") <==> Below(e.name, c + "/")
  {
    if HasPrefix(e.name, c + "/") { assert e.name[..|c| + 1][|c|] == '/'; }
  }

  lemma LateNone(es: seq<Entry>, n: nat, p: string)
    requires SortedNames(es) && 0 < n <= |es| && HasPrefix(es[0].name, p)
    requires n < |es| ==> !HasPrefix(es[n].name, p)
    ensures forall e :: e in es[n..] ==> !HasPrefix(e.name, p)
  {
    hide Lt, HasPrefix;
    forall e | e in es[n..] ensures !HasPrefix(e.name, p) {
      var j :| 0 <= j < |es[n..]| && es[n..][j] == e;
      assert e == es[n + j];
      if j > 0 && HasPrefix(e.name, p) { Between(es[0].name, es[n].name, es[n + j].name, p); }
    }
  }

  lemma RunSome(es: seq<Entry>, p: string)
    requires es != [] && Below(es[0].name, p)
    ensures RunLen(es, p) > 0
  {
  }

  /** In a sorted index the entries of a directory are one run. */
  lemma RunIsUnder(es: seq<Entry>, c: string)
    requires IndexOk(es) && es != [] && HasPrefix(es[0].name, c + "/")
    ensures var n := RunLen(es, c + "/");
      0 < n && Cut(es, c + "/") == Under(es, c) && |Under(es, c)| == n && Under(es[n..], c) == []
  {
    hide Lt, HasPrefix, Below, SortedNames, Under, RunLen;
    var p, n := c + "/", RunLen(es, c + "/");
    RunAll(es, p);
    assert es[0] in es;
    ProperBelow(es[0], c);
    RunSome(es, p);
    if n < |es| {
      assert es[n] in es;
      ProperBelow(es[n], c);
    }
    LateNone(es, n, p);
    UnderNone(es[n..], c);
    UnderAll(es[..n], c);
    UnderConcat(es[..n], es[n..], c);
    assert es == es[..n] + es[n..];
  }

  lemma IsDirConcat(a: seq<Entry>, b: seq<Entry>, d: string)
    ensures IsDir(a + b, d) <==> IsDir(a, d) || IsDir(b, d)
  {
    hide HasSlash, First;
    if IsDir(a + b, d) { var e :| e in a + b && HasSlash(e.name) && First(e.name) == d; assert e in a || e in b; }
    if IsDir(a, d) { var e :| e in a && HasSlash(e.name) && First(e.name) == d; assert e in a + b; }
    if IsDir(b, d) { var e :| e in b && HasSlash(e.name) && First(e.name) == d; assert e in a + b; }
  }

  lemma IsDirOne(e: Entry, d: string)
    ensures IsDir([e], d) <==> HasSlash(e.name) && First(e.name) == d
  {
    if HasSlash(e.name) && First(e.name) == d { assert e in [e]; }
  }

  lemma {:induction false} DirUnder(es: seq<Entry>, c: string)
    requires '/' !in c
    ensures IsDir(es, c) <==> Under(es, c) != []
  {
    hide HasPrefix, HasSlash, First, IsDir;
    if es != [] {
      DirUnder(es[1..], c);
      FirstIs(es[0].name, c);
      assert es == [es[0]] + es[1..];
      UnderCons(es[0], es[1..], c);
      IsDirConcat([es[0]], es[1..], c);
      IsDirOne(es[0], c);
    } else {
      NoDir(c);
    }
  }

  lemma NoDir(c: string)
    ensures !IsDir([], c)
  {
  }

  /** A cut is the relative view of leading entries; cutting twice is cutting once deeper. */
  lemma {:induction false} CutCut(es: seq<Entry>, base: string, p: string)
    ensures Cut(es, base + p) == Cut(Cut(es, base), p)
  {
    if es != [] && Below(es[0].name, base) {
      var e := es[0];
      CutCut(es[1..], base, p);
      CutHead(es, base);
      assert e.name == base + e.name[|base|..];
      assert Below(e.name, base + p) <==> Below(e.name[|base|..], p) by {
        if |base + p| < |e.name| { assert e.name[..|base + p|] == base + e.name[|base|..][..|p|]; }
      }
      if Below(e.name, base + p) {
        CutHead(es, base + p);
        CutHead(Cut(es, base), p);
        assert e.name[|base|..][|p|..] == e.name[|base + p|..];
        assert Cut(es, base)[1..] == Cut(es[1..], base);
      }
    } else if es != [] {
      BelowShorter(es[0].name, base, p);
    }
  }

  lemma BelowShorter(s: string, base: string, p: string)
    ensures Below(s, base + p) ==> Below(s, base)
  {
    if Below(s, base + p) { assert s[..|base|] == s[..|base + p|][..|base|]; }
  }

  lemma CutHead(es: seq<Entry>, p: string)
    requires es != [] && Below(es[0].name, p)
    ensures Cut(es, p) == [es[0].(name := es[0].name[|p|..])] + Cut(es[1..], p)
  {
    RunAll(es, p);
    RunAll(es[1..], p);
    assert es[..RunLen(es, p)] == [es[0]] + es[1..][..RunLen(es[1..], p)];
  }

  lemma {:induction false} CutDrop(es: seq<Entry>, p: string, i: nat)
    requires i <= RunLen(es, p)
    ensures Cut(es[i..], p) == Cut(es, p)[i..]
  {
    if i == 0 {
      assert es[0..] == es && Cut(es, p)[0..] == Cut(es, p);
    } else {
      CutHead(es, p);
      CutDrop(es[1..], p, i - 1);
      assert es[i..] == es[1..][i - 1..];
    }
  }

  lemma CutSorted(es: seq<Entry>, p: string, i: nat, j: nat)
    requires SortedNames(es) && i < j < RunLen(es, p)
    ensures Lt(Cut(es, p)[i].name, Cut(es, p)[j].name)
  {
    hide Lt, RunLen, Cut;
    CutAt(es, p, i);
    CutAt(es, p, j);
    assert Lt(es[i].name, es[j].name);
    LtStrip(es[i].name, es[j].name, |p|);
  }

  lemma CutProper(es: seq<Entry>, p: string, i: nat)
    requires ProperNames(es) && i < RunLen(es, p)
    ensures var x := Cut(es, p)[i].name; x != [] && x[|x| - 1] != '/'
  {
    CutAt(es, p, i);
    assert es[i] in es;
  }

  lemma CutOk(es: seq<Entry>, p: string)
    requires IndexOk(es)
    ensures IndexOk(Cut(es, p))
  {
    hide Lt, Cut, RunLen;
    var g := Cut(es, p);
    forall i, j | 0 <= i < j < |g| ensures Lt(g[i].name, g[j].name) { CutSorted(es, p, i, j); }
    forall e | e in g ensures e.name != [] && e.name[|e.name| - 1] != '/' {
      var i :| 0 <= i < |g| && g[i] == e;
      CutProper(es, p, i);
    }
  }

  /** Entry i of the relative view. */
  lemma CutAt(es: seq<Entry>, p: string, i: nat)
    requires i < |es|
    ensures i < RunLen(es, p) ==> Below(es[i].name, p) && Cut(es, p)[i] == es[i].(name := es[i].name[|p|..])
    ensures i == RunLen(es, p) ==> !Below(es[i].name, p)
  {
    RunAll(es, p);
    if i < RunLen(es, p) { assert es[..RunLen(es, p)][i] == es[i]; }
  }

  // ---------------------------------------------------------------------------------------------
  // Reading the entries of a directory in order

  /** The first i entries end where a run ends. */
  ghost predicate Boundary(g: seq<Entry>, i: nat)
    requires i <= |g|
  {
    forall c :: IsDir(g[..i], c) ==> Under(g[i..], c) == []
  }

  lemma OkDrop(g: seq<Entry>, i: nat)
    requires IndexOk(g) && i <= |g|
    ensures IndexOk(g[i..])
  {
  }

  /** At an entry with a slash: its directory's entries are the run from here. */
  lemma AtDir(g: seq<Entry>, i: nat)
    requires IndexOk(g) && i < |g| && HasSlash(g[i].name) && Boundary(g, i)
    ensures var c := First(g[i].name); var n := |Under(g, c)|;
      && Cut(g[i..], c + "/") == Under(g, c) && RunLen(g[i..], c + "/") == n && 0 < n <= |g| - i
      && !IsDir(g[..i], c) && IsDir(g, c) && Letters(Under(g, c)) < Letters(g)
  {
    hide IndexOk, Letters, Lt;
    var c := First(g[i].name);
    OkDrop(g, i);
    FirstIs(g[i].name, c);
    RunIsUnder(g[i..], c);
    assert g == g[..i] + g[i..];
    UnderConcat(g[..i], g[i..], c);
    DirUnder(g[..i], c);
    assert g[i] in g;
    LettersSplit(g, i);
    OkBelow(g, i, c);
    CutShorter(g[i..], c + "/");
  }

  lemma OkBelow(g: seq<Entry>, i: nat, c: string)
    requires IndexOk(g) && i < |g| && HasPrefix(g[i].name, c + "/")
    ensures Below(g[i].name, c + "/")
  {
    assert g[i] in g;
    assert g[i].name[..|c| + 1][|c|] == '/';
  }

  lemma BoundaryStep(a: seq<Entry>, r: seq<Entry>, t: seq<Entry>, c: string)
    requires forall d :: IsDir(a, d) ==> Under(r + t, d) == []
    requires forall d :: IsDir(r, d) <==> d == c
    requires Under(t, c) == []
    ensures forall d :: IsDir(a + r, d) <==> IsDir(a, d) || d == c
    ensures forall d :: IsDir(a + r, d) ==> Under(t, d) == []
  {
    hide Under, IsDir;
    forall d ensures IsDir(a + r, d) <==> IsDir(a, d) || d == c { IsDirConcat(a, r, d); }
    forall d | IsDir(a + r, d) ensures Under(t, d) == [] { UnderConcat(r, t, d); }
  }

  /** After the run of a directory: one more directory has been seen, and this is a boundary again. */
  lemma AfterDir(g: seq<Entry>, i: nat)
    requires IndexOk(g) && i < |g| && HasSlash(g[i].name) && Boundary(g, i)
    ensures var c := First(g[i].name); var i' := i + |Under(g, c)|;
      i' <= |g| && Boundary(g, i') && forall d :: IsDir(g[..i'], d) <==> IsDir(g[..i], d) || d == c
  {
    hide IndexOk, Letters, Lt, Under, IsDir, HasSlash, First, HasPrefix, Below;
    AtDir(g, i);
    var c := First(g[i].name);
    var n := |Under(g, c)|;
    OkDrop(g, i);
    FirstIs(g[i].name, c);
    RunIsUnder(g[i..], c);
    forall d ensures IsDir(g[i..][..n], d) <==> d == c { RunDirs(g[i..], c, n, d); }
    assert g[i..] == g[i..][..n] + g[i..][n..];
    BoundaryStep(g[..i], g[i..][..n], g[i..][n..], c);
    assert g[i..][n..] == g[i + n..] && g[..i + n] == g[..i] + g[i..][..n];
  }

  lemma RunDirs(es: seq<Entry>, c: string, n: nat, d: string)
    requires '/' !in c && 0 < n <= |es| && n == RunLen(es, c + "/")
    ensures IsDir(es[..n], d) <==> d == c
  {
    RunAll(es, c + "/");
    forall e | e in es[..n] ensures HasSlash(e.name) && First(e.name) == c { FirstIs(e.name, c); }
    assert es[..n][0] in es[..n];
  }

  /** After a plain entry nothing has changed for directories. */
  lemma AfterFile(g: seq<Entry>, i: nat)
    requires i < |g| && !HasSlash(g[i].name) && Boundary(g, i)
    ensures Boundary(g, i + 1) && forall d :: IsDir(g[..i + 1], d) <==> IsDir(g[..i], d)
  {
    hide Under, IsDir, HasSlash, First;
    assert g[..i + 1] == g[..i] + [g[i]] && g[i..] == [g[i]] + g[i + 1..];
    forall d: string ensures IsDir(g[..i + 1], d) <==> IsDir(g[..i], d) {
      IsDirConcat(g[..i], [g[i]], d);
      IsDirOne(g[i], d);
    }
    var later := g[i + 1..];
    forall d | IsDir(g[..i + 1], d) ensures Under(later, d) == [] {
      UnderConcat([g[i]], later, d);
    }
  }

  lemma ItemsFile(hash: Hash, g: seq<Entry>, i: nat)
    requires i < |g| && !HasSlash(g[i].name)
    ensures Items(hash, g[i..]) == [Item(g[i].mode, g[i].name, g[i].oid)] + Items(hash, g[i + 1..])
  {
    assert g[i..][1..] == g[i + 1..];
  }

  lemma ItemsDir(hash: Hash, g: seq<Entry>, i: nat)
    requires IndexOk(g) && i < |g| && HasSlash(g[i].name) && Boundary(g, i)
    ensures var c := First(g[i].name); var i' := i + |Under(g, c)|;
      i' <= |g| && Items(hash, g[i..]) == [Item(S_IFDIR, c, TreeOid(hash, Under(g, c)))] + Items(hash, g[i'..])
  {
    hide IndexOk, Lt, Under, Cut, RunLen, IsDir, Boundary;
    AtDir(g, i);
    var c := First(g[i].name);
    FirstIs(g[i].name, c);
    OkBelow(g, i, c);
    assert g[i..][|Under(g, c)|..] == g[i + |Under(g, c)|..];
  }

  // ---------------------------------------------------------------------------------------------
  // update_one

  /** The subtrees while the first loop of update_one stands before entry i. */
  ghost predicate Marked(hash: Hash, db: set<Oid>, dryrun: bool, down: seq<Sub>, g: seq<Entry>, i: nat)
    requires i <= |g|
  {
    && SortedSubs(down)
    && (forall s :: s in down ==> '/' !in s.name && Inv(hash, s.child, Under(g, s.name), false))
    && (forall s :: s in down && s.used ==> Done(hash, db, dryrun, s, g) && IsDir(g[..i], s.name))
    && (forall c :: IsDir(g[..i], c) ==> exists s :: s in down && s.name == c && s.used)
  }

  /** A subtree that has been brought up to date. */
  ghost predicate Done(hash: Hash, db: set<Oid>, dryrun: bool, s: Sub, g: seq<Entry>)
  {
    Agrees(hash, s.child, Under(g, s.name)) && s.count == |Under(g, s.name)| && (dryrun || s.child.oid in db)
  }

  /** A node found valid stays in agreement while its subtrees are brought up to date. */
  ghost predicate StillValid(hash: Hash, it: Node, down: seq<Sub>, g: seq<Entry>)
  {
    it.entry_count >= 0 ==> Agrees(hash, it.(down := down), g)
  }

  /** A new invalid subtree at pos, and nothing else. */
  ghost predicate Created(down: seq<Sub>, down': seq<Sub>, pos: nat, name: string)
  {
    && pos <= |down| && (forall s :: s in down ==> s.name != name)
    && down' == down[..pos] + [Sub(name, Node(-1, NULL_OID, []), 0, false)] + down[pos..]
  }

  /** find_subtree with create. */
  method FindOrCreate(down: seq<Sub>, name: string) returns (down': seq<Sub>, pos: nat)
    requires SortedSubs(down)
    ensures SortedSubs(down') && pos < |down'| && down'[pos].name == name
    ensures down' == down || Created(down, down', pos, name)
  {
    hide NameLt;
    var p := SubtreePos(down, name);
    if p >= 0 { return down, p; }
    Missing(down, name, p);
    pos := -p - 1;
    down' := down[..pos] + [Sub(name, Node(-1, NULL_OID, []), 0, false)] + down[pos..];
    forall i, j | 0 <= i < j < |down'| ensures NameLt(down'[i].name, down'[j].name) {
      if i < pos && j > pos { NameLtTransitive(down[i].name, name, down[j - 1].name); }
    }
    forall s | s in down ensures s.name != name { var i :| 0 <= i < |down| && down[i] == s; }
  }

  lemma ClearedMarked(hash: Hash, it: Node, g: seq<Entry>, root: bool, db: set<Oid>, dryrun: bool, down: seq<Sub>)
    requires Inv(hash, it, g, root) && |down| == |it.down|
    requires forall i :: 0 <= i < |down| ==> down[i] == it.down[i].(used := false)
    ensures Marked(hash, db, dryrun, down, g, 0) && StillValid(hash, it, down, g) && Boundary(g, 0)
  {
    hide Agrees, Under, NameLt, TreeOid;
    forall c ensures !IsDir(g[..0], c) {}
    forall s | s in down ensures '/' !in s.name && Inv(hash, s.child, Under(g, s.name), false) {
      var i :| 0 <= i < |down| && down[i] == s;
      assert it.down[i] in it.down;
    }
    if it.entry_count >= 0 { AgreesSame(hash, it, down, g); }
  }

  /** Agreement looks at names and children only. */
  lemma AgreesSame(hash: Hash, it: Node, down: seq<Sub>, g: seq<Entry>)
    requires Agrees(hash, it, g) && |down| == |it.down|
    requires forall i :: 0 <= i < |down| ==> down[i].name == it.down[i].name
    requires forall i :: 0 <= i < |down| ==>
      down[i].child == it.down[i].child || Agrees(hash, down[i].child, Under(g, down[i].name))
    ensures Agrees(hash, it.(down := down), g)
  {
    hide NameLt, TreeOid, Under;
    forall s | s in down ensures IsDir(g, s.name) && Agrees(hash, s.child, Under(g, s.name)) {
      var i :| 0 <= i < |down| && down[i] == s;
      assert it.down[i] in it.down;
    }
    forall c | IsDir(g, c) ensures exists s :: s in down && s.name == c {
      var s :| s in it.down && s.name == c;
      var i :| 0 <= i < |it.down| && it.down[i] == s;
      assert down[i] in down;
    }
  }

  /** A new, empty subtree changes nothing that has been established. */
  lemma CreatedMarked(hash: Hash, it: Node, g: seq<Entry>, i: nat, db: set<Oid>, dryrun: bool, down: seq<Sub>,
                      down': seq<Sub>, pos: nat, name: string)
    requires i <= |g| && Marked(hash, db, dryrun, down, g, i) && StillValid(hash, it, down, g)
    requires SortedSubs(down') && pos < |down'| && down'[pos].name == name && IsDir(g, name) && '/' !in name
    requires down' == down || Created(down, down', pos, name)
    ensures Marked(hash, db, dryrun, down', g, i) && StillValid(hash, it, down', g)
    ensures Inv(hash, down'[pos].child, Under(g, name), false)
  {
    hide Agrees, Under, NameLt, TreeOid, IsDir, Done;
    assert down'[pos] in down';
    if down' != down {
      var created := Sub(name, Node(-1, NULL_OID, []), 0, false);
      assert forall s :: s in down' <==> s in down || s == created;
      FreshInv(hash, Under(g, name));
      if it.entry_count >= 0 { AgreesHas(hash, it.(down := down), g, name); }
    }
  }

  lemma FreshInv(hash: Hash, es: seq<Entry>)
    ensures Inv(hash, Node(-1, NULL_OID, []), es, false)
  {
  }

  lemma AgreesHas(hash: Hash, node: Node, es: seq<Entry>, c: string)
    requires Agrees(hash, node, es) && IsDir(es, c)
    ensures exists s :: s in node.down && s.name == c
  {
  }

  /** The subtree at pos has been updated: its whole run counts as seen. */
  lemma UpdatedMarked(hash: Hash, it: Node, g: seq<Entry>, i: nat, i': nat, db: set<Oid>, db': set<Oid>, dryrun: bool,
                      down: seq<Sub>, pos: nat, s: Sub, c: string)
    requires i <= i' <= |g| && Marked(hash, db, dryrun, down, g, i) && StillValid(hash, it, down, g) && db <= db'
    requires pos < |down| && down[pos].name == c == s.name && '/' !in c && s.used
    requires Done(hash, db', dryrun, s, g) && Under(g, c) != []
    requires forall d :: IsDir(g[..i'], d) <==> IsDir(g[..i], d) || d == c
    ensures Marked(hash, db', dryrun, down[pos := s], g, i') && StillValid(hash, it, down[pos := s], g)
  {
    hide Agrees, Under, NameLt, TreeOid, IsDir, Inv;
    var down' := down[pos := s];
    DoneInv(hash, db', dryrun, s, g);
    forall t | t in down' ensures t == s || t in down {}
    assert down'[pos] in down';
    forall d | IsDir(g[..i'], d) ensures exists t :: t in down' && t.name == d && t.used {
      if d != c {
        var t :| t in down && t.name == d && t.used;
        var k :| 0 <= k < |down| && down[k] == t;
        assert down'[k] in down';
      }
    }
    if it.entry_count >= 0 { AgreesSame(hash, it.(down := down), down', g); }
  }

  lemma DoneInv(hash: Hash, db: set<Oid>, dryrun: bool, s: Sub, g: seq<Entry>)
    requires Done(hash, db, dryrun, s, g) && Under(g, s.name) != []
    ensures Inv(hash, s.child, Under(g, s.name), false)
  {
    AgreesInv(hash, s.child, Under(g, s.name));
  }

  /** discard_unused_subtrees */
  method DiscardUnused(down: seq<Sub>) returns (kept: seq<Sub>)
    ensures kept == UsedOnly(down)
  {
    hide UsedOnly;
    UsedOnlyNil();
    kept := [];
    var src := 0;
    assert down[0..] == down;
    while src < |down|
      invariant src <= |down| && kept + UsedOnly(down[src..]) == UsedOnly(down)
    {
      UsedOnlyStep(down, src);
      if down[src].used { kept := kept + [down[src]]; }
      src := src + 1;
    }
    assert down[src..] == [];
  }

  lemma UsedOnlyNil()
    ensures UsedOnly([]) == []
  {
  }

  lemma UsedOnlyStep(down: seq<Sub>, i: nat)
    requires i < |down|
    ensures UsedOnly(down[i..]) == (if down[i].used then [down[i]] else []) + UsedOnly(down[i + 1..])
  {
    assert down[i..][0] == down[i] && down[i..][1..] == down[i + 1..];
  }

  ghost function UsedOnly(down: seq<Sub>): seq<Sub>
  {
    if down == [] then [] else (if down[0].used then [down[0]] else []) + UsedOnly(down[1..])
  }

  lemma {:induction false} UsedOnlyHas(down: seq<Sub>)
    requires SortedSubs(down)
    ensures SortedSubs(UsedOnly(down)) && forall s :: s in UsedOnly(down) <==> s in down && s.used
  {
    hide NameLt, SortedSubs;
    SortedEmpty();
    if down != [] {
      SortedTail(down);
      UsedOnlyHas(down[1..]);
      assert forall s :: s in down <==> s == down[0] || s in down[1..];
      assert UsedOnly(down) == if down[0].used then [down[0]] + UsedOnly(down[1..]) else UsedOnly(down[1..]);
      if down[0].used { SortedCons(down[0], UsedOnly(down[1..])); }
    }
  }

  lemma SortedEmpty()
    ensures SortedSubs([])
  {
  }

  lemma SortedTail(down: seq<Sub>)
    requires SortedSubs(down) && down != []
    ensures SortedSubs(down[1..]) && forall s :: s in down[1..] ==> NameLt(down[0].name, s.name)
  {
    hide NameLt;
  }

  lemma SortedCons(s: Sub, rest: seq<Sub>)
    requires SortedSubs(rest) && forall t :: t in rest ==> NameLt(s.name, t.name)
    ensures SortedSubs([s] + rest)
  {
    hide NameLt;
  }

  /** After the first loop and the discarding, the subtrees are those of the entries, all up to date. */
  ghost predicate UpToDate(hash: Hash, db: set<Oid>, dryrun: bool, down: seq<Sub>, g: seq<Entry>)
  {
    && SortedSubs(down)
    && (forall s :: s in down ==> IsDir(g, s.name) && Done(hash, db, dryrun, s, g) && '/' !in s.name
                                  && Inv(hash, s.child, Under(g, s.name), false))
    && (forall c :: IsDir(g, c) ==> exists s :: s in down && s.name == c)
  }

  lemma DiscardedUpToDate(hash: Hash, it: Node, db: set<Oid>, dryrun: bool, down: seq<Sub>, g: seq<Entry>)
    requires Marked(hash, db, dryrun, down, g, |g|) && StillValid(hash, it, down, g)
    ensures UpToDate(hash, db, dryrun, UsedOnly(down), g) && StillValid(hash, it, UsedOnly(down), g)
  {
    hide Agrees, Under, NameLt, TreeOid, IsDir, Inv, UsedOnly, Done;
    assert g[..|g|] == g;
    UsedOnlyHas(down);
    if it.entry_count >= 0 { AgreesSubset(hash, it.(down := down), UsedOnly(down), g); }
  }

  lemma AgreesSubset(hash: Hash, it: Node, down: seq<Sub>, g: seq<Entry>)
    requires Agrees(hash, it, g) && SortedSubs(down) && (forall s :: s in down ==> s in it.down)
    requires forall c :: IsDir(g, c) ==> exists s :: s in down && s.name == c
    ensures Agrees(hash, it.(down := down), g)
  {
    hide NameLt, TreeOid, Under;
  }

  /** No tree has the null name. */
  ghost predicate Proper(hash: Hash) { forall ls :: hash(ls) != NULL_OID }

  /** The entries whose object can be put into a tree. */
  ghost predicate Writable(db: set<Oid>, missing_ok: bool, es: seq<Entry>)
  {
    forall e :: e in es ==> EntryOk(db, missing_ok, e)
  }

  /** A submodule's commit need not be there. */
  ghost predicate EntryOk(db: set<Oid>, missing_ok: bool, e: Entry)
  {
    e.oid != NULL_OID && (e.mode == 0xE000 || missing_ok || e.oid in db)
  }

  /** What has been checked of the first i entries: those in the directory itself, and the trees of its directories. */
  ghost predicate Checked(hash: Hash, db: set<Oid>, missing_ok: bool, g: seq<Entry>, i: nat)
    requires i <= |g|
  {
    && (forall k :: 0 <= k < i && !HasSlash(g[k].name) ==> EntryOk(db, missing_ok, g[k]))
    && (forall c :: IsDir(g[..i], c) ==>
          TreeOid(hash, Under(g, c)) != NULL_OID && (missing_ok || TreeOid(hash, Under(g, c)) in db))
  }

  /** Whatever the node and its subtrees are valid for could be written. */
  ghost predicate Trusted(db: set<Oid>, missing_ok: bool, node: Node, es: seq<Entry>)
  {
    && (node.entry_count >= 0 ==> Writable(db, missing_ok, es))
    && forall s :: s in node.down ==> Trusted(db, missing_ok, s.child, Under(es, s.name))
  }

  /** The same of the subtrees not yet looked at, and of the entries in the directories that were. */
  ghost predicate Trusting(db: set<Oid>, missing_ok: bool, down: seq<Sub>, g: seq<Entry>, i: nat)
    requires i <= |g|
  {
    && (forall s :: s in down && !s.used ==> Trusted(db, missing_ok, s.child, Under(g, s.name)))
    && forall c :: IsDir(g[..i], c) ==> Writable(db, missing_ok, Under(g, c))
  }

  lemma {:induction false} TrustedMore(db: set<Oid>, db': set<Oid>, missing_ok: bool, node: Node, es: seq<Entry>)
    requires db <= db' && Trusted(db, missing_ok, node, es)
    ensures Trusted(db', missing_ok, node, es)
  {
    forall s | s in node.down ensures Trusted(db', missing_ok, s.child, Under(es, s.name)) {
      TrustedMore(db, db', missing_ok, s.child, Under(es, s.name));
    }
  }

  lemma TrustingStart(db: set<Oid>, missing_ok: bool, it: Node, down: seq<Sub>, g: seq<Entry>)
    requires Trusted(db, missing_ok, it, g) && |down| == |it.down|
    requires forall i :: 0 <= i < |down| ==> down[i] == it.down[i].(used := false)
    ensures Trusting(db, missing_ok, down, g, 0)
  {
    hide Under, Writable;
    forall c ensures !IsDir(g[..0], c) {}
    forall s | s in down ensures Trusted(db, missing_ok, s.child, Under(g, s.name)) {
      var i :| 0 <= i < |down| && down[i] == s;
      assert it.down[i] in it.down;
    }
  }

  lemma TrustingFile(db: set<Oid>, missing_ok: bool, down: seq<Sub>, g: seq<Entry>, i: nat)
    requires i < |g| && Trusting(db, missing_ok, down, g, i) && forall d :: IsDir(g[..i + 1], d) <==> IsDir(g[..i], d)
    ensures Trusting(db, missing_ok, down, g, i + 1)
  {
    hide Under, Writable, IsDir, Trusted;
    var next := i + 1;
    forall c | IsDir(g[..next], c) ensures Writable(db, missing_ok, Under(g, c)) { assert IsDir(g[..i], c); }
  }

  /** The subtree found or created for a directory that was not looked at yet. */
  lemma TrustingFound(hash: Hash, db: set<Oid>, dryrun: bool, missing_ok: bool, was: seq<Sub>, down: seq<Sub>, pos: nat,
                      g: seq<Entry>, i: nat, name: string)
    requires i <= |g| && Trusting(db, missing_ok, was, g, i) && Marked(hash, db, dryrun, was, g, i)
    requires pos < |down| && down[pos].name == name && !IsDir(g[..i], name)
    requires down == was || Created(was, down, pos, name)
    ensures Trusting(db, missing_ok, down, g, i) && Trusted(db, missing_ok, down[pos].child, Under(g, name))
  {
    hide Under, Writable, IsDir, Inv, Done, NameLt;
    var created := Sub(name, Node(-1, NULL_OID, []), 0, false);
    assert Trusted(db, missing_ok, created.child, Under(g, name));
    if down == was {
      assert down[pos] in was;
    } else {
      assert forall s :: s in down <==> s in was || s == created;
    }
  }

  lemma TrustingUpdated(db: set<Oid>, db': set<Oid>, missing_ok: bool, down: seq<Sub>, pos: nat, s: Sub, g: seq<Entry>,
                        i: nat, i': nat)
    requires i <= i' <= |g| && Trusting(db, missing_ok, down, g, i) && db <= db'
    requires pos < |down| && down[pos].name == s.name && s.used && Writable(db', missing_ok, Under(g, s.name))
    requires forall d :: IsDir(g[..i'], d) <==> IsDir(g[..i], d) || d == s.name
    ensures Trusting(db', missing_ok, down[pos := s], g, i')
  {
    hide Under, IsDir, Trusted;
    forall t | t in down[pos := s] && !t.used ensures Trusted(db', missing_ok, t.child, Under(g, t.name)) {
      assert t in down;
      TrustedMore(db, db', missing_ok, t.child, Under(g, t.name));
    }
    forall c | IsDir(g[..i'], c) ensures Writable(db', missing_ok, Under(g, c)) {}
  }

  /** All has been checked: the whole directory could be written. */
  lemma CheckedWritable(hash: Hash, db: set<Oid>, missing_ok: bool, down: seq<Sub>, g: seq<Entry>)
    requires Checked(hash, db, missing_ok, g, |g|) && Trusting(db, missing_ok, down, g, |g|)
    ensures Writable(db, missing_ok, g)
  {
    hide Under, Trusted, TreeOid, HasSlash, First;
    assert g[..|g|] == g;
    forall e | e in g ensures EntryOk(db, missing_ok, e) {
      var k :| 0 <= k < |g| && g[k] == e;
      if HasSlash(e.name) {
        var c := First(e.name);
        assert IsDir(g, c);
        InDir(g, e, c);
        assert EntryOk(db, missing_ok, e.(name := e.name[|c| + 1..]));
      }
    }
  }

  lemma InDir(g: seq<Entry>, e: Entry, c: string)
    requires e in g && HasSlash(e.name) && First(e.name) == c
    ensures |c| + 1 <= |e.name| && e.(name := e.name[|c| + 1..]) in Under(g, c)
  {
    FirstIs(e.name, c);
    UnderHas(g, c, e);
  }

  /** What could be written agrees with a tree that is trusted all over. */
  lemma {:induction false} WritableTrusted(hash: Hash, db: set<Oid>, missing_ok: bool, node: Node, es: seq<Entry>)
    requires Agrees(hash, node, es) && Writable(db, missing_ok, es)
    ensures Trusted(db, missing_ok, node, es)
  {
    hide Under, NameLt, TreeOid, IsDir, EntryOk;
    forall s | s in node.down ensures Trusted(db, missing_ok, s.child, Under(es, s.name)) {
      WritableUnder(db, missing_ok, es, s.name);
      WritableTrusted(hash, db, missing_ok, s.child, Under(es, s.name));
    }
  }

  lemma CheckedStart(hash: Hash, db: set<Oid>, missing_ok: bool, g: seq<Entry>)
    ensures Checked(hash, db, missing_ok, g, 0)
  {
    forall c ensures !IsDir(g[..0], c) {}
  }

  lemma CheckedFile(hash: Hash, db: set<Oid>, missing_ok: bool, g: seq<Entry>, i: nat)
    requires i < |g| && Checked(hash, db, missing_ok, g, i) && EntryOk(db, missing_ok, g[i])
    requires forall d :: IsDir(g[..i + 1], d) <==> IsDir(g[..i], d)
    ensures Checked(hash, db, missing_ok, g, i + 1)
  {
    hide Under, IsDir, EntryOk, TreeOid, HasSlash;
    var next := i + 1;
    forall c | IsDir(g[..next], c)
      ensures TreeOid(hash, Under(g, c)) != NULL_OID && (missing_ok || TreeOid(hash, Under(g, c)) in db) {
      assert IsDir(g[..i], c);
    }
  }

  lemma CheckedDir(hash: Hash, db: set<Oid>, missing_ok: bool, g: seq<Entry>, i: nat, i': nat, c: string)
    requires i <= i' <= |g| && Checked(hash, db, missing_ok, g, i)
    requires TreeOid(hash, Under(g, c)) != NULL_OID && (missing_ok || TreeOid(hash, Under(g, c)) in db)
    requires forall d :: IsDir(g[..i'], d) <==> IsDir(g[..i], d) || d == c
    requires forall k :: i <= k < i' ==> HasSlash(g[k].name)
    ensures Checked(hash, db, missing_ok, g, i')
  {
    hide Under, IsDir, EntryOk, TreeOid, HasSlash;
  }

  /** All entries of the run of a directory have a slash. */
  lemma RunSlashes(g: seq<Entry>, i: nat)
    requires IndexOk(g) && i < |g| && HasSlash(g[i].name) && Boundary(g, i)
    ensures var n := |Under(g, First(g[i].name))|;
      i + n <= |g| && forall k :: i <= k < i + n ==> HasSlash(g[k].name)
  {
    hide IndexOk, Letters, Lt, Under, IsDir;
    AtDir(g, i);
    var c := First(g[i].name);
    var n := |Under(g, c)|;
    RunAll(g[i..], c + "/");
    forall k | i <= k < i + n ensures HasSlash(g[k].name) {
      assert g[i..][..n][k - i] == g[k];
      assert g[k] in g[i..][..n];
      FirstIs(g[k].name, c);
    }
  }

  lemma {:induction false} WritableUnder(db: set<Oid>, missing_ok: bool, es: seq<Entry>, c: string)
    requires Writable(db, missing_ok, es)
    ensures Writable(db, missing_ok, Under(es, c))
  {
    if es != [] {
      assert es[0] in es;
      WritableUnder(db, missing_ok, es[1..], c);
    }
  }

  /** Where the loops of update_one stop, and what they see at entry i before that. */
  lemma LevelAt(cache: seq<Entry>, base: string, i: nat)
    requires IndexOk(cache) && i <= |Cut(cache, base)|
    ensures var g := Cut(cache, base);
      && IndexOk(g)
      && (i < |cache| ==> (i < |g| <==> Below(cache[i].name, base)))
      && (i < |g| ==> i < |cache| && g[i] == cache[i].(name := cache[i].name[|base|..]))
  {
    CutOk(cache, base);
    if i < |cache| { CutAt(cache, base, i); }
  }

  /** The deeper level entered at entry i. */
  lemma DeeperLevel(cache: seq<Entry>, base: string, i: nat)
    requires IndexOk(cache) && i < |Cut(cache, base)| && HasSlash(Cut(cache, base)[i].name)
    requires Boundary(Cut(cache, base), i)
    ensures var g := Cut(cache, base); var c := First(g[i].name);
      Cut(cache[i..], base + (c + "/")) == Under(g, c) && IndexOk(cache[i..])
  {
    hide IndexOk, Under, Boundary, Letters;
    CutOk(cache, base);
    var c := First(Cut(cache, base)[i].name);
    AtDir(Cut(cache, base), i);
    CutDrop(cache, base, i);
    CutCut(cache[i..], base, c + "/");
    OkDrop(cache, i);
  }

  /** The second loop of update_one: the tree object's lines, or a missing object. */
  method TreeLines(hash: Hash, db: ObjectDb, down: seq<Sub>, cache: seq<Entry>, base: string, missing_ok: bool,
                   ghost dryrun: bool)
    returns (lines: seq<Item>, i: nat, ok: bool)
    requires IndexOk(cache) && UpToDate(hash, db.oids, dryrun, down, Cut(cache, base))
    ensures ok ==> lines == Items(hash, Cut(cache, base)) && i == |Cut(cache, base)|
    ensures ok ==> Checked(hash, db.oids, missing_ok, Cut(cache, base), |Cut(cache, base)|)
    ensures Writable(db.oids, missing_ok, Cut(cache, base)) && (missing_ok || !dryrun) && Proper(hash) ==> ok
  {
    hide Items, IndexOk, Cut, RunLen, Under, Boundary, Agrees, Inv, NameLt, IsDir, Writable, Lt, HasSlash, First,
      TreeOid, Checked, UpToDate;
    ghost var g := Cut(cache, base);
    lines, i := [], 0;
    BoundaryZero(g);
    CheckedStart(hash, db.oids, missing_ok, g);
    assert SortedSubs(down) by { InOrderSubs(hash, db.oids, dryrun, down, g); }
    assert g[0..] == g;
    while i < |cache|
      invariant i <= |g| && Boundary(g, i) && Checked(hash, db.oids, missing_ok, g, i)
      invariant lines + Items(hash, g[i..]) == Items(hash, g)
      decreases |cache| - i
    {
      LevelAt(cache, base, i);
      var path := cache[i].name;
      if |path| <= |base| || path[..|base|] != base { break; }
      var rel := path[|base|..];
      var mode, oid;
      if HasSlash(rel) {
        var name := rel[..Slash(rel)];
        FirstSlash(rel);
        AtDir(g, i); AfterDir(g, i); ItemsDir(hash, g, i); RunSlashes(g, i);
        var pos := SubtreePos(down, name);
        SubHere(hash, db.oids, dryrun, down, g, name, pos);
        var sub := down[pos];
        mode, oid := S_IFDIR, sub.child.oid;
        ghost var at := i;
        i := i + sub.count;
        if oid == NULL_OID || (!missing_ok && oid !in db.oids) { return lines, i, false; }
        CheckedDir(hash, db.oids, missing_ok, g, at, i, name);
        lines := lines + [Item(mode, name, oid)];
      } else {
        AfterFile(g, i); ItemsFile(hash, g, i);
        mode, oid := cache[i].mode, cache[i].oid;
        if oid == NULL_OID || (mode != S_IFGITLINK && !missing_ok && oid !in db.oids) {
          NotWritable(db.oids, missing_ok, g, i);
          return lines, i, false;
        }
        CheckedFile(hash, db.oids, missing_ok, g, i);
        i := i + 1;
        lines := lines + [Item(mode, rel, oid)];
      }
    }
    LevelEnd(cache, base, i);
    ItemsNil(hash);
    assert g[i..] == [];
    ok := true;
  }

  lemma InOrderSubs(hash: Hash, db: set<Oid>, dryrun: bool, down: seq<Sub>, g: seq<Entry>)
    requires UpToDate(hash, db, dryrun, down, g)
    ensures SortedSubs(down)
  {
  }

  lemma BoundaryZero(g: seq<Entry>)
    ensures Boundary(g, 0)
  {
    forall c ensures !IsDir(g[..0], c) {}
  }

  lemma FirstSlash(rel: string)
    requires HasSlash(rel)
    ensures First(rel) == rel[..Slash(rel)] && '/' !in First(rel)
  {
  }

  lemma SubHere(hash: Hash, db: set<Oid>, dryrun: bool, down: seq<Sub>, g: seq<Entry>, name: string, pos: int)
    requires UpToDate(hash, db, dryrun, down, g) && IsDir(g, name)
    requires pos >= 0 ==> pos < |down| && down[pos].name == name
    requires pos < 0 ==> -pos - 1 <= |down|
    requires pos < 0 ==> forall i :: 0 <= i < |down| ==>
      (if i < -pos - 1 then NameLt(down[i].name, name) else NameLt(name, down[i].name))
    ensures pos >= 0
    ensures down[pos].count == |Under(g, name)| && down[pos].child.oid == TreeOid(hash, Under(g, name))
    ensures dryrun || down[pos].child.oid in db
    ensures Proper(hash) ==> down[pos].child.oid != NULL_OID
  {
    hide Inv, NameLt, Under;
    if pos < 0 { Missing(down, name, pos); }
    var s :| s in down && s.name == name;
    var k :| 0 <= k < |down| && down[k] == s;
    assert pos >= 0;
    assert down[pos] in down;
  }

  lemma NotWritable(db: set<Oid>, missing_ok: bool, g: seq<Entry>, i: nat)
    requires i < |g| && (g[i].oid == NULL_OID || (g[i].mode != S_IFGITLINK && !missing_ok && g[i].oid !in db))
    ensures !Writable(db, missing_ok, g)
  {
    assert g[i] in g;
  }

  lemma LevelEnd(cache: seq<Entry>, base: string, i: nat)
    requires IndexOk(cache) && i <= |Cut(cache, base)| && i <= |cache|
    requires i < |cache| ==> !Below(cache[i].name, base)
    ensures i == |Cut(cache, base)|
  {
    LevelAt(cache, base, i);
  }

  lemma ItemsNil(hash: Hash)
    ensures Items(hash, []) == []
  {
  }

  lemma InvFacts(hash: Hash, it: Node, g: seq<Entry>, root: bool)
    requires Inv(hash, it, g, root)
    ensures it.entry_count >= 0 ==> Agrees(hash, it, g) && it.entry_count == |g|
    ensures SortedSubs(it.down)
  {
  }

  lemma BelowIs(s: string, p: string)
    ensures Below(s, p) <==> |p| < |s| && s[..|p|] == p
  {
  }

  lemma NowDone(hash: Hash, db: set<Oid>, dryrun: bool, s: Sub, g: seq<Entry>)
    requires Agrees(hash, s.child, Under(g, s.name)) && s.count == |Under(g, s.name)| && (dryrun || s.child.oid in db)
    ensures Done(hash, db, dryrun, s, g)
  {
  }

  lemma TrustedHere(db: set<Oid>, missing_ok: bool, it: Node, g: seq<Entry>)
    requires Trusted(db, missing_ok, it, g)
    ensures it.entry_count >= 0 ==> Writable(db, missing_ok, g)
  {
  }

  lemma CheckedMore(hash: Hash, db: set<Oid>, db': set<Oid>, missing_ok: bool, g: seq<Entry>)
    requires Checked(hash, db, missing_ok, g, |g|) && db <= db'
    ensures Checked(hash, db', missing_ok, g, |g|)
  {
    hide Under, IsDir, TreeOid, HasSlash;
  }

  lemma MarkedSorted(hash: Hash, db: set<Oid>, dryrun: bool, down: seq<Sub>, g: seq<Entry>, i: nat)
    requires i <= |g| && Marked(hash, db, dryrun, down, g, i)
    ensures SortedSubs(down)
  {
  }

  lemma MarkedFile(hash: Hash, db: set<Oid>, dryrun: bool, down: seq<Sub>, g: seq<Entry>, i: nat)
    requires i < |g| && Marked(hash, db, dryrun, down, g, i) && forall d :: IsDir(g[..i + 1], d) <==> IsDir(g[..i], d)
    ensures Marked(hash, db, dryrun, down, g, i + 1)
  {
    hide Inv, Done, IsDir, NameLt, Under;
    forall s | s in down && s.used ensures IsDir(g[..i + 1], s.name) { assert IsDir(g[..i], s.name); }
    var seen := g[..i + 1];
    forall c | IsDir(seen, c) ensures exists s :: s in down && s.name == c && s.used { assert IsDir(g[..i], c); }
  }

  lemma WritableDeeper(db: set<Oid>, db': set<Oid>, missing_ok: bool, g: seq<Entry>, c: string)
    requires db <= db'
    ensures Writable(db, missing_ok, g) ==> Writable(db', missing_ok, Under(g, c)) && Writable(db', missing_ok, g)
  {
    if Writable(db, missing_ok, g) { WritableUnder(db', missing_ok, g, c); }
  }

  /** A child that could not be brought up to date leaves the node with the invariant. */
  lemma FailedChild(hash: Hash, it: Node, g: seq<Entry>, root: bool, i: nat, db: set<Oid>, dryrun: bool, down: seq<Sub>,
                    pos: nat, child: Node)
    requires i <= |g| && Inv(hash, it, g, root) && Marked(hash, db, dryrun, down, g, i) && StillValid(hash, it, down, g)
    requires pos < |down| && Inv(hash, child, Under(g, down[pos].name), false)
    requires child.entry_count == down[pos].child.entry_count
    ensures Inv(hash, it.(down := down[pos := down[pos].(child := child)]), g, root)
  {
    hide NameLt, TreeOid, IsDir, Done, Under, Agrees;
    var down' := down[pos := down[pos].(child := child)];
    assert down[pos] in down;
    forall s | s in down' ensures '/' !in s.name && Inv(hash, s.child, Under(g, s.name), false) {
      if s != down'[pos] { assert s in down; }
    }
    if it.entry_count >= 0 {
      AgreesChild(hash, it.(down := down), g, pos);
      AgreesCount(hash, down[pos].child, Under(g, down[pos].name));
      AgreesSame(hash, it.(down := down), down', g);
    }
  }

  lemma AgreesCount(hash: Hash, node: Node, es: seq<Entry>)
    requires Agrees(hash, node, es)
    ensures node.entry_count == |es|
  {
  }

  lemma FailedLevel(hash: Hash, it: Node, g: seq<Entry>, root: bool, db: set<Oid>, dryrun: bool, down: seq<Sub>)
    requires Inv(hash, it, g, root) && UpToDate(hash, db, dryrun, down, g) && StillValid(hash, it, down, g)
    ensures Inv(hash, it.(down := down), g, root)
  {
    hide NameLt, TreeOid, IsDir, Done, Under, Agrees;
  }

  lemma LevelAgrees(hash: Hash, it: Node, g: seq<Entry>, root: bool, db: set<Oid>, dryrun: bool)
    requires it.entry_count == |g| && it.oid == hash(Items(hash, g)) && UpToDate(hash, db, dryrun, it.down, g)
    requires root || g != []
    ensures Agrees(hash, it, g) && Inv(hash, it, g, root)
  {
    hide NameLt, IsDir, Under, Items, Inv;
    AgreesInv(hash, it, g);
    assert root ==> Inv(hash, it, g, root);
  }

  /** How the first loop of update_one stands before entry i. */
  ghost predicate Standing(hash: Hash, db: set<Oid>, dryrun: bool, missing_ok: bool, trusted: bool, it: Node,
                           down: seq<Sub>, g: seq<Entry>, i: nat)
    requires i <= |g|
  {
    && Marked(hash, db, dryrun, down, g, i) && StillValid(hash, it, down, g)
    && (trusted ==> Trusting(db, missing_ok, down, g, i))
  }

  lemma StandStart(hash: Hash, db: set<Oid>, dryrun: bool, missing_ok: bool, it: Node, down: seq<Sub>, g: seq<Entry>,
                   root: bool)
    requires Inv(hash, it, g, root) && |down| == |it.down|
    requires forall i :: 0 <= i < |down| ==> down[i] == it.down[i].(used := false)
    ensures Standing(hash, db, dryrun, missing_ok, Trusted(db, missing_ok, it, g), it, down, g, 0) && Boundary(g, 0)
  {
    hide Marked, StillValid, Trusted, Trusting, Boundary, Inv;
    ClearedMarked(hash, it, g, root, db, dryrun, down);
    if Trusted(db, missing_ok, it, g) { TrustingStart(db, missing_ok, it, down, g); }
  }

  lemma StandFile(hash: Hash, db: set<Oid>, dryrun: bool, missing_ok: bool, trusted: bool, it: Node, down: seq<Sub>,
                  g: seq<Entry>, i: nat)
    requires i < |g| && !HasSlash(g[i].name) && Boundary(g, i)
    requires Standing(hash, db, dryrun, missing_ok, trusted, it, down, g, i)
    ensures Standing(hash, db, dryrun, missing_ok, trusted, it, down, g, i + 1) && Boundary(g, i + 1)
  {
    hide Marked, StillValid, Trusting, Boundary, HasSlash, IsDir;
    AfterFile(g, i);
    MarkedFile(hash, db, dryrun, down, g, i);
    if trusted { TrustingFile(db, missing_ok, down, g, i); }
  }

  lemma StandFound(hash: Hash, db: set<Oid>, dryrun: bool, missing_ok: bool, trusted: bool, it: Node, was: seq<Sub>,
                   down: seq<Sub>, pos: nat, g: seq<Entry>, i: nat, name: string)
    requires i <= |g| && Standing(hash, db, dryrun, missing_ok, trusted, it, was, g, i)
    requires SortedSubs(down) && pos < |down| && down[pos].name == name && IsDir(g, name) && '/' !in name
    requires (down == was || Created(was, down, pos, name)) && !IsDir(g[..i], name)
    ensures Standing(hash, db, dryrun, missing_ok, trusted, it, down, g, i)
    ensures Inv(hash, down[pos].child, Under(g, name), false)
    ensures trusted ==> Trusted(db, missing_ok, down[pos].child, Under(g, name))
  {
    hide Marked, StillValid, Trusted, Trusting, IsDir, Under, Inv, Created, SortedSubs;
    CreatedMarked(hash, it, g, i, db, dryrun, was, down, pos, name);
    if trusted { TrustingFound(hash, db, dryrun, missing_ok, was, down, pos, g, i, name); }
  }

  lemma {:induction false} StandUpdated(hash: Hash, db: set<Oid>, db': set<Oid>, dryrun: bool, missing_ok: bool,
                                        trusted: bool, it: Node, down: seq<Sub>, pos: nat, s: Sub, g: seq<Entry>,
                                        i: nat)
    requires 0 < s.count && i + s.count <= |g| && db <= db'
    requires Standing(hash, db, dryrun, missing_ok, trusted, it, down, g, i)
    requires pos < |down| && down[pos].name == s.name && '/' !in s.name && s.used
    requires Agrees(hash, s.child, Under(g, s.name)) && s.count == |Under(g, s.name)|
    requires dryrun || s.child.oid in db'
    requires forall d :: IsDir(g[..i + s.count], d) <==> IsDir(g[..i], d) || d == s.name
    requires trusted ==> Writable(db', missing_ok, Under(g, s.name))
    ensures Standing(hash, db', dryrun, missing_ok, trusted, it, down[pos := s], g, i + s.count)
  {
    hide Marked, StillValid, Trusting, IsDir, Under, Agrees, Writable, Done;
    NowDone(hash, db', dryrun, s, g);
    var i': nat := i + s.count;
    forall d ensures IsDir(g[..i'], d) <==> IsDir(g[..i], d) || d == s.name {}
    UpdatedMarked(hash, it, g, i, i', db, db', dryrun, down, pos, s, s.name);
    if trusted { TrustingUpdated(db, db', missing_ok, down, pos, s, g, i, i'); }
  }

  lemma StandParts(hash: Hash, db: set<Oid>, dryrun: bool, missing_ok: bool, trusted: bool, it: Node, down: seq<Sub>,
                   g: seq<Entry>, i: nat)
    requires i <= |g| && Standing(hash, db, dryrun, missing_ok, trusted, it, down, g, i)
    ensures Marked(hash, db, dryrun, down, g, i) && StillValid(hash, it, down, g) && SortedSubs(down)
    ensures trusted ==> Trusting(db, missing_ok, down, g, i)
  {
  }

  /** The second half of update_one, after the subtrees have been brought up to date. */
  method WriteLevel(hash: Hash, db: ObjectDb, it: Node, all: seq<Sub>, cache: seq<Entry>, base: string,
                    missing_ok: bool, dryrun: bool, ghost trusted: bool)
    returns (it': Node, r: int)
    requires IndexOk(cache) && Inv(hash, it, Cut(cache, base), base == "") && (base == "" || Cut(cache, base) != [])
    requires Standing(hash, db.oids, dryrun, missing_ok, trusted, it, all, Cut(cache, base), |Cut(cache, base)|)
    modifies db
    ensures old(db.oids) <= db.oids
    ensures Inv(hash, it', Cut(cache, base), base == "")
    ensures r >= 0 ==> r == |Cut(cache, base)| && Agrees(hash, it', Cut(cache, base)) && (dryrun || it'.oid in db.oids)
    ensures r >= 0 ==> Checked(hash, db.oids, missing_ok, Cut(cache, base), |Cut(cache, base)|)
    ensures trusted && r >= 0 ==> Writable(db.oids, missing_ok, Cut(cache, base))
    ensures r < 0 ==> r == -1 && it'.entry_count == it.entry_count && it'.oid == it.oid
    ensures Writable(old(db.oids), missing_ok, Cut(cache, base)) && (missing_ok || !dryrun) && Proper(hash) ==> r >= 0
  {
    hide Items, IndexOk, Cut, RunLen, Under, Agrees, NameLt, IsDir, Writable, TreeOid,
      Marked, StillValid, Done, UpToDate, UsedOnly, Inv, Checked, Trusting, Standing;
    ghost var g, root := Cut(cache, base), base == "";
    StandParts(hash, db.oids, dryrun, missing_ok, trusted, it, all, g, |g|);
    DiscardedUpToDate(hash, it, db.oids, dryrun, all, g);
    var down := DiscardUnused(all);
    it' := it.(down := down);
    var lines, n, ok := TreeLines(hash, db, down, cache, base, missing_ok, dryrun);
    if !ok {
      FailedLevel(hash, it, g, root, db.oids, dryrun, down);
      return it', -1;
    }
    if trusted { CheckedWritable(hash, db.oids, missing_ok, all, g); }
    it' := Node(n, hash(lines), down);
    LevelAgrees(hash, it', g, root, db.oids, dryrun);
    ghost var before := db.oids;
    if !dryrun { db.oids := db.oids + {it'.oid}; }
    CheckedMore(hash, before, db.oids, missing_ok, g);
    WritableDeeper(before, db.oids, missing_ok, g, "");
    r := n;
  }

  /**
   update_one: brings the node for directory base (empty, or ending in a slash) up to date with the entries
   below it.  On success the node agrees with them, whatever was cached before; and the node keeps the
   invariant in any case.
   */
  method UpdateOne(hash: Hash, db: ObjectDb, it: Node, cache: seq<Entry>, base: string, missing_ok: bool, dryrun: bool)
    returns (it': Node, r: int)
    requires IndexOk(cache) && Inv(hash, it, Cut(cache, base), base == "")
    requires base == "" || Cut(cache, base) != []
    modifies db
    ensures old(db.oids) <= db.oids
    ensures Inv(hash, it', Cut(cache, base), base == "")
    ensures r >= 0 ==> r == |Cut(cache, base)| && Agrees(hash, it', Cut(cache, base)) && (dryrun || it'.oid in db.oids)
    ensures r >= 0 && !(0 <= it.entry_count && it.oid in old(db.oids)) ==>
      Checked(hash, db.oids, missing_ok, Cut(cache, base), |Cut(cache, base)|)
    ensures Trusted(old(db.oids), missing_ok, it, Cut(cache, base)) && r >= 0 ==>
      Writable(db.oids, missing_ok, Cut(cache, base))
    ensures r < 0 ==> r == -1 && it'.entry_count == it.entry_count && it'.oid == it.oid
    ensures Writable(old(db.oids), missing_ok, Cut(cache, base)) && (missing_ok || !dryrun) && Proper(hash) ==> r >= 0
    decreases Letters(Cut(cache, base))
  {
    hide Items, IndexOk, Cut, RunLen, Under, Boundary, Agrees, NameLt, IsDir, Writable, Lt, HasSlash, First, TreeOid,
      Letters, Standing, Inv, Below, Checked, Trusted;
    ghost var g, root := Cut(cache, base), base == "";
    ghost var trusted := Trusted(db.oids, missing_ok, it, g);
    InvFacts(hash, it, g, root);
    if trusted { TrustedHere(db.oids, missing_ok, it, g); }
    if 0 <= it.entry_count && it.oid in db.oids {
      return it, it.entry_count;
    }
    var down := seq(|it.down|, k requires 0 <= k < |it.down| => it.down[k].(used := false));
    StandStart(hash, db.oids, dryrun, missing_ok, it, down, g, root);
    var i: nat := 0;
    while i < |cache|
      invariant i <= |g| && Boundary(g, i) && old(db.oids) <= db.oids
      invariant Standing(hash, db.oids, dryrun, missing_ok, trusted, it, down, g, i)
      decreases |cache| - i
    {
      LevelAt(cache, base, i);
      var path := cache[i].name;
      BelowIs(path, base);
      if |path| <= |base| || path[..|base|] != base { break; }
      var rel := path[|base|..];
      if !HasSlash(rel) {
        StandFile(hash, db.oids, dryrun, missing_ok, trusted, it, down, g, i);
        i := i + 1;
        continue;
      }
      var name := rel[..Slash(rel)];
      FirstSlash(rel);
      AtDir(g, i); AfterDir(g, i); DeeperLevel(cache, base, i);
      ghost var was, before := down, db.oids;
      StandParts(hash, before, dryrun, missing_ok, trusted, it, down, g, i);
      var pos;
      down, pos := FindOrCreate(down, name);
      StandFound(hash, before, dryrun, missing_ok, trusted, it, was, down, pos, g, i, name);
      WritableDeeper(old(db.oids), before, missing_ok, g, name);
      var child, subcnt := UpdateOne(hash, db, down[pos].child, cache[i..], base + (name + "/"), missing_ok, dryrun);
      if subcnt < 0 {
        StandParts(hash, before, dryrun, missing_ok, trusted, it, down, g, i);
        FailedChild(hash, it, g, root, i, before, dryrun, down, pos, child);
        return it.(down := down[pos := down[pos].(child := child)]), subcnt;
      }
      assert subcnt != 0;   // otherwise update_one dies: empty sub-tree
      var s := Sub(name, child, subcnt, true);
      StandUpdated(hash, before, db.oids, dryrun, missing_ok, trusted, it, down, pos, s, g, i);
      down := down[pos := s];
      i := i + subcnt;
    }
    LevelEnd(cache, base, i);
    WritableDeeper(old(db.oids), db.oids, missing_ok, g, "");
    it', r := WriteLevel(hash, db, it, down, cache, base, missing_ok, dryrun, trusted);
  }
}
