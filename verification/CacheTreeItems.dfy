/**
 What the tree object of a directory holds (update_one, git-2.15.0/cache-tree.c:358-411), said of the index entries
 and not of the way they are walked: which lines, and in what order.
 */
module CacheTreeItems {
  import opened PathNames
  import opened CacheTree
  import opened CacheTreeInvalidate
  import opened CacheTreeUpdate

  /** The line of an entry that lies in the directory itself. */
  ghost predicate EntryLine(es: seq<Entry>, l: Item)
  {
    exists e :: e in es && '/' !in e.name && l == Item(e.mode, e.name, e.oid)
  }

  /** The line of a directory: mode 040000, and the id of the tree of all that lies in it. */
  ghost predicate DirLine(hash: Hash, es: seq<Entry>, l: Item)
  {
    IsDir(es, l.name) && l == Item(0x4000, l.name, hash(Items(hash, Under(es, l.name))))
  }

  /** The view of a directory holds exactly the entries in it, each without the directory's name. */
  lemma {:induction false} UnderIs(es: seq<Entry>, c: string, u: Entry)
    ensures u in Under(es, c) <==> u.(name := c + "/" + u.name) in es
  {
    if es != [] {
      var e, full := es[0], c + "/" + u.name;
      UnderIs(es[1..], c, u);
      assert es == [e] + es[1..];
      UnderCons(e, es[1..], c);
      if HasPrefix(e.name, c + "/") {
        assert e.name == e.name[..|c| + 1] + e.name[|c| + 1..];
        assert full[|c| + 1..] == u.name;
      } else {
        assert full[..|c| + 1] == c + "/";
      }
    }
  }

  lemma NoSlash(s: string)
    ensures HasSlash(s) <==> '/' in s
  {
    if !HasSlash(s) { assert s == s[..Slash(s)]; } else { assert s[Slash(s)] == '/'; }
  }

  lemma EntryLineConcat(a: seq<Entry>, b: seq<Entry>, l: Item)
    ensures EntryLine(a + b, l) <==> EntryLine(a, l) || EntryLine(b, l)
  {
    if EntryLine(a, l) { var e :| e in a && '/' !in e.name && l == Item(e.mode, e.name, e.oid); assert e in a + b; }
    if EntryLine(b, l) { var e :| e in b && '/' !in e.name && l == Item(e.mode, e.name, e.oid); assert e in a + b; }
    if EntryLine(a + b, l) {
      var e :| e in a + b && '/' !in e.name && l == Item(e.mode, e.name, e.oid);
      assert e in a || e in b;
    }
  }

  lemma EntryLineOne(e: Entry, l: Item)
    ensures EntryLine([e], l) <==> '/' !in e.name && l == Item(e.mode, e.name, e.oid)
  {
    assert e in [e];
  }

  /** Entries that all lie in c say nothing about other directories. */
  lemma {:induction false} OnlyIn(es: seq<Entry>, c: string, d: string)
    requires '/' !in c && '/' !in d && c != d && forall e :: e in es ==> HasPrefix(e.name, c + "/")
    ensures Under(es, d) == [] && !IsDir(es, d)
  {
    hide HasPrefix;
    forall e | e in es ensures !HasPrefix(e.name, d + "/") { FirstIs(e.name, c); FirstIs(e.name, d); }
    UnderNone(es, d);
    DirUnder(es, d);
  }

  /** The first lines: of an entry in the directory itself, or of a directory with all its entries. */
  lemma ItemsHead(hash: Hash, es: seq<Entry>)
    requires IndexOk(es) && es != []
    ensures !HasSlash(es[0].name) ==>
      Items(hash, es) == [Item(es[0].mode, es[0].name, es[0].oid)] + Items(hash, es[1..])
    ensures HasSlash(es[0].name) ==>
      var c := First(es[0].name);
      var n := RunLen(es, c + "/");
      && 0 < n && Cut(es, c + "/") == Under(es, c) && Under(es[n..], c) == [] && Letters(es[n..]) < Letters(es)
      && (forall e :: e in es[..n] ==> HasPrefix(e.name, c + "/"))
      && Items(hash, es) == [Item(S_IFDIR, c, hash(Items(hash, Under(es, c))))] + Items(hash, es[n..])
  {
    hide Lt, SortedNames, Under, RunLen, Cut, HasPrefix, Below;
    if HasSlash(es[0].name) {
      var c := First(es[0].name);
      FirstIs(es[0].name, c);
      assert es[0] in es;
      ProperBelow(es[0], c);
      RunIsUnder(es, c);
      RunAll(es, c + "/");
      forall e | e in es[..RunLen(es, c + "/")] ensures HasPrefix(e.name, c + "/") {
        assert e in es;
        ProperBelow(e, c);
      }
      CutShorter(es, c + "/");
    }
  }

  /** The rest of an index. */
  lemma IndexRest(es: seq<Entry>, n: nat)
    requires IndexOk(es) && n <= |es|
    ensures IndexOk(es[n..])
  {
  }

  /** The lines are exactly those of the entries in the directory itself and those of its directories. */
  lemma {:induction false} ItemsAre(hash: Hash, es: seq<Entry>, l: Item)
    requires IndexOk(es)
    ensures l in Items(hash, es) <==> EntryLine(es, l) || DirLine(hash, es, l)
    decreases Letters(es)
  {
    hide IndexOk, Items, Under, EntryLine, IsDir, HasSlash, First, RunLen, HasPrefix, Letters;
    if es == [] {
      NoLines(hash, l);
    } else {
      ItemsHead(hash, es);
      var e := es[0];
      NoSlash(e.name);
      var n := if HasSlash(e.name) then RunLen(es, First(e.name) + "/") else 1;
      var run, rest := es[..n], es[n..];
      assert es == run + rest;
      IndexRest(es, n);
      if !HasSlash(e.name) { LettersRest(es); }
      ItemsAre(hash, rest, l);
      EntryLineConcat(run, rest, l);
      IsDirConcat(run, rest, l.name);
      UnderConcat(run, rest, l.name);
      if !HasSlash(e.name) {
        assert run == [e];
        EntryLineOne(e, l);
        IsDirOne(e, l.name);
        if IsDir(es, l.name) {
          SlashFree(es, l.name);
          OutsideNone(e, l.name);
          assert Under(es, l.name) == [] + Under(rest, l.name) == Under(rest, l.name);
        }
      } else {
        DirHead(hash, es, run, rest, First(e.name), l);
      }
    }
  }

  lemma LettersRest(es: seq<Entry>)
    requires es != []
    ensures Letters(es[1..]) < Letters(es)
  {
  }

  lemma NoLines(hash: Hash, l: Item)
    ensures l !in Items(hash, []) && !EntryLine([], l) && !IsDir([], l.name)
  {
  }

  lemma SlashFree(es: seq<Entry>, d: string)
    requires IsDir(es, d)
    ensures '/' !in d
  {
  }

  lemma OutsideNone(e: Entry, d: string)
    requires '/' !in d && !HasSlash(e.name)
    ensures Under([e], d) == []
  {
    FirstIs(e.name, d);
    UnderNone([e], d);
  }

  lemma {:induction false} DirHead(hash: Hash, es: seq<Entry>, run: seq<Entry>, rest: seq<Entry>, c: string, l: Item)
    requires '/' !in c && run != [] && (forall e :: e in run ==> HasPrefix(e.name, c + "/")) && Under(rest, c) == []
    requires Under(es, l.name) == Under(run, l.name) + Under(rest, l.name)
    requires Items(hash, es) == [Item(S_IFDIR, c, hash(Items(hash, Under(es, c))))] + Items(hash, rest)
    requires EntryLine(es, l) <==> EntryLine(run, l) || EntryLine(rest, l)
    requires IsDir(es, l.name) <==> IsDir(run, l.name) || IsDir(rest, l.name)
    requires l in Items(hash, rest) <==> EntryLine(rest, l) || DirLine(hash, rest, l)
    ensures l in Items(hash, es) <==> EntryLine(es, l) || DirLine(hash, es, l)
  {
    hide Items, Under, IsDir, HasSlash, First, HasPrefix;
    if EntryLine(run, l) {
      var e :| e in run && '/' !in e.name && l == Item(e.mode, e.name, e.oid);
      FirstIs(e.name, c);
      NoSlash(e.name);
      assert false;
    }
    if l.name == c {
      DirUnder(rest, c);
      FirstIs(run[0].name, c);
      assert IsDir(run, c) by { HasDir(run, 0, c); }
    } else if IsDir(es, l.name) {
      SlashFree(es, l.name);
      OnlyIn(run, c, l.name);
      assert Under(es, l.name) == [] + Under(rest, l.name) == Under(rest, l.name);
    }
  }

  lemma HasDir(es: seq<Entry>, i: nat, c: string)
    requires i < |es| && HasSlash(es[i].name) && First(es[i].name) == c
    ensures IsDir(es, c)
  {
    assert es[i] in es;
  }

  // ---------------------------------------------------------------------------------------------
  // The order of the lines

  /** The name by which tree lines are ordered: a directory's goes on with a slash. */
  function Place(l: Item): string { l.name + if l.mode == 0x4000 then "/" else "" }

  /** A name that comes before one with a prefix, and has not that prefix, comes before the prefix. */
  lemma {:induction false} BeforePrefix(a: string, p: string, s: string)
    requires Lt(a, p + s) && !HasPrefix(a, p)
    ensures Lt(a, p)
  {
    if p != [] && a != [] && a[0] == p[0] {
      PrefixHead(a, p);
      assert (p + s)[1..] == p[1..] + s;
      BeforePrefix(a[1..], p[1..], s);
    }
  }

  lemma {:induction false} PrefixBefore(p: string, s: string)
    ensures s != [] ==> Lt(p, p + s)
  {
    if p != [] {
      assert (p + s)[1..] == p[1..] + s;
      PrefixBefore(p[1..], s);
    }
  }

  /** The head of an index comes before whatever lies behind it, as lines go. */
  lemma HeadFirst(hash: Hash, es: seq<Entry>, n: nat, head: Item, l: Item)
    requires IndexOk(es) && 0 < n <= |es| && (forall e :: e in es ==> e.mode != 0x4000) && l in Items(hash, es[n..])
    requires !HasSlash(es[0].name) ==> head == Item(es[0].mode, es[0].name, es[0].oid)
    requires HasSlash(es[0].name) ==> head.mode == 0x4000 && head.name == First(es[0].name)
    requires HasSlash(es[0].name) ==> Under(es[n..], head.name) == []
    ensures Lt(Place(head), Place(l))
  {
    hide Items, Under, IsDir, Lt, HasPrefix, IndexOk;
    var rest := es[n..];
    IndexRest(es, n);
    ItemsAre(hash, rest, l);
    var a := es[0].name;
    HeadProper(es);
    if HasSlash(a) { HeadReaches(es[0], head.name); } else { assert Place(head) == a; }
    if EntryLine(rest, l) {
      var e :| e in rest && '/' !in e.name && l == Item(e.mode, e.name, e.oid);
      Later(es, n, e);
      assert Place(l) == e.name;
      if HasSlash(a) { LtTransitive(Place(head), a, e.name); }
    } else {
      var d := l.name;
      var e := DirEntry(rest, d);
      Later(es, n, e);
      assert e.name == (d + "/") + e.name[|d| + 1..];
      if HasSlash(a) {
        LtTransitive(Place(head), a, e.name);
        if head.name == d { DirUnder(rest, d); assert false; }
        OtherDir(head.name, d);
      } else {
        FirstIs(a, d);
      }
      BeforePrefix(Place(head), d + "/", e.name[|d| + 1..]);
    }
  }

  lemma HeadProper(es: seq<Entry>)
    requires IndexOk(es) && es != []
    ensures es[0] in es && es[0].name != [] && es[0].name[|es[0].name| - 1] != '/'
  {
  }

  lemma OtherDir(c: string, d: string)
    requires '/' !in c && '/' !in d && c != d
    ensures !HasPrefix(c + "/", d + "/")
  {
    FirstIs(c + "/", d);
    SlashAt(c, "");
    assert c + "/" + "" == c + "/";
    if HasSlash(c + "/") { assert First(c + "/") == (c + "/")[..|c|] == c; }
  }

  lemma HeadReaches(e: Entry, c: string)
    requires HasSlash(e.name) && First(e.name) == c && e.name[|e.name| - 1] != '/'
    ensures Lt(c + "/", e.name) && '/' !in c
  {
    var s := e.name[|c| + 1..];
    assert e.name == (c + "/") + s && e.name[|c|] == '/';
    PrefixBefore(c + "/", s);
  }

  lemma Later(es: seq<Entry>, n: nat, e: Entry)
    requires IndexOk(es) && 0 < n <= |es| && e in es[n..]
    ensures e in es && Lt(es[0].name, e.name)
  {
    var j :| 0 <= j < |es[n..]| && es[n..][j] == e;
    assert es[n + j] == e && es[0] in es;
  }

  lemma DirEntry(es: seq<Entry>, d: string) returns (e: Entry)
    requires IsDir(es, d)
    ensures e in es && HasSlash(e.name) && First(e.name) == d && '/' !in d && e.name == d + "/" + e.name[|d| + 1..]
  {
    e :| e in es && HasSlash(e.name) && First(e.name) == d;
  }

  /** The lines are in the order of their names, where a directory's name goes on with a slash; none is twice. */
  lemma {:induction false} ItemsOrdered(hash: Hash, es: seq<Entry>)
    requires IndexOk(es) && forall e :: e in es ==> e.mode != 0x4000
    ensures var ls := Items(hash, es); forall i, j :: 0 <= i < j < |ls| ==> Lt(Place(ls[i]), Place(ls[j]))
    decreases Letters(es)
  {
    hide IndexOk, Items, Under, HasSlash, First, RunLen, HasPrefix, Letters, Place, Lt;
    var ls := Items(hash, es);
    if es == [] {
      assert ls == [] by { EmptyLines(hash); }
    } else {
      ItemsHead(hash, es);
      var n := if HasSlash(es[0].name) then RunLen(es, First(es[0].name) + "/") else 1;
      var rest := es[n..];
      IndexRest(es, n);
      if !HasSlash(es[0].name) { LettersRest(es); }
      ItemsOrdered(hash, rest);
      assert ls == [ls[0]] + Items(hash, rest);
      forall l | l in Items(hash, rest) ensures Lt(Place(ls[0]), Place(l)) { HeadFirst(hash, es, n, ls[0], l); }
    }
  }

  lemma EmptyLines(hash: Hash)
    ensures Items(hash, []) == []
  {
  }
}
