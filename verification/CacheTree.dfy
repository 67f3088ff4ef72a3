/**
 The cached hierarchy of tree objects over the sorted index (git-2.15.0/cache-tree.c): what it means for
 a node to agree with the index entries below it, and invalidation along the path of an edit.
 Inside a node, entry names are relative to the node's directory.
 */
module CacheTree {
  import opened PathNames

  type Oid = string

  const S_IFDIR := 0x4000
  const S_IFGITLINK := 0xE000

  datatype Entry = Entry(name: string, mode: int, oid: Oid)

  /** One line of a tree object. */
  datatype Item = Item(mode: int, name: string, oid: Oid)

  /** struct cache_tree; an invalid node has entry_count -1. */
  datatype Node = Node(entry_count: int, oid: Oid, down: seq<Sub>)

  /** struct cache_tree_sub */
  datatype Sub = Sub(name: string, child: Node, count: int, used: bool)

  /** hash_sha1_file on the formatted tree object. */
  type Hash = seq<Item> -> Oid

  // ---------------------------------------------------------------------------------------------
  // Index entries

  ghost predicate SortedNames(es: seq<Entry>)
  {
    forall i, j :: 0 <= i < j < |es| ==> Lt(es[i].name, es[j].name)
  }

  /** No name is empty or ends in a slash. */
  ghost predicate ProperNames(es: seq<Entry>)
  {
    forall e :: e in es ==> e.name != [] && e.name[|e.name| - 1] != '/'
  }

  ghost predicate IndexOk(es: seq<Entry>) { SortedNames(es) && ProperNames(es) }

  /** The entries in directory c, relative to it. */
  ghost function Under(es: seq<Entry>, c: string): seq<Entry>
  {
    if es == [] then []
    else (if HasPrefix(es[0].name, c + "/") then [es[0].(name := es[0].name[|c| + 1..])] else []) + Under(es[1..], c)
  }

  /** How many leading entries have a name below p. */
  ghost function RunLen(es: seq<Entry>, p: string): (n: nat)
    ensures n <= |es|
  {
    if es == [] || !Below(es[0].name, p) then 0 else 1 + RunLen(es[1..], p)
  }

  ghost function Strip(es: seq<Entry>, k: nat): (r: seq<Entry>)
    requires forall e :: e in es ==> k <= |e.name|
    ensures |r| == |es| && forall i :: 0 <= i < |es| ==> r[i] == es[i].(name := es[i].name[k..])
  {
    seq(|es|, i requires 0 <= i < |es| => es[i].(name := es[i].name[k..]))
  }

  lemma {:induction false} RunAll(es: seq<Entry>, p: string)
    ensures forall e :: e in es[..RunLen(es, p)] ==> Below(e.name, p)
    ensures RunLen(es, p) < |es| ==> !Below(es[RunLen(es, p)].name, p)
  {
    if es != [] && Below(es[0].name, p) {
      RunAll(es[1..], p);
      var n := RunLen(es[1..], p);
      assert es[..n + 1] == [es[0]] + es[1..][..n];
    }
  }

  /** The leading entries below p, relative to it. */
  ghost function Cut(es: seq<Entry>, p: string): (r: seq<Entry>)
    ensures |r| == RunLen(es, p)
  {
    RunAll(es, p);
    Strip(es[..RunLen(es, p)], |p|)
  }

  ghost function Letters(es: seq<Entry>): nat
  {
    if es == [] then 0 else 1 + |es[0].name| + Letters(es[1..])
  }

  lemma {:induction false} LettersSplit(es: seq<Entry>, i: nat)
    requires i <= |es|
    ensures Letters(es) == Letters(es[..i]) + Letters(es[i..])
  {
    if i == 0 {
      assert es[..0] == [] && es[0..] == es;
    } else {
      assert es[..i][1..] == es[1..][..i - 1] && es[i..] == es[1..][i - 1..];
      LettersSplit(es[1..], i - 1);
    }
  }

  lemma {:induction false} LettersStrip(es: seq<Entry>, k: nat)
    requires k > 0 && forall e :: e in es ==> k <= |e.name|
    ensures Letters(Strip(es, k)) + |es| <= Letters(es)
  {
    if es != [] {
      LettersStrip(es[1..], k);
      assert Strip(es, k)[1..] == Strip(es[1..], k);
    }
  }

  lemma CutShorter(es: seq<Entry>, p: string)
    requires p != [] && es != [] && Below(es[0].name, p)
    ensures Letters(Cut(es, p)) < Letters(es) && Letters(es[RunLen(es, p)..]) < Letters(es)
  {
    var n := RunLen(es, p);
    RunAll(es, p);
    LettersSplit(es, n);
    LettersStrip(es[..n], |p|);
    assert Letters(es[..n]) >= 1;
  }

  // ---------------------------------------------------------------------------------------------
  // The tree an index writes

  /** The lines of the tree object for a directory, in index order. */
  ghost function Items(hash: Hash, es: seq<Entry>): seq<Item>
    decreases Letters(es)
  {
    if es == [] then []
    else if !HasSlash(es[0].name) then [Item(es[0].mode, es[0].name, es[0].oid)] + Items(hash, es[1..])
    else
      var c := First(es[0].name);
      FirstIs(es[0].name, c);
      if Below(es[0].name, c + "/") then
        CutShorter(es, c + "/");
        [Item(S_IFDIR, c, hash(Items(hash, Cut(es, c + "/"))))] + Items(hash, es[RunLen(es, c + "/")..])
      else []
  }

  ghost function TreeOid(hash: Hash, es: seq<Entry>): Oid { hash(Items(hash, es)) }

  /** The directories directly below. */
  ghost predicate IsDir(es: seq<Entry>, c: string) { exists e :: e in es && HasSlash(e.name) && First(e.name) == c }

  ghost predicate SortedSubs(down: seq<Sub>)
  {
    forall i, j :: 0 <= i < j < |down| ==> NameLt(down[i].name, down[j].name)
  }

  /** The node is what the entries say: their number, their tree, and a node for each directory, agreeing in turn. */
  ghost predicate Agrees(hash: Hash, node: Node, es: seq<Entry>)
  {
    && node.entry_count == |es| && node.oid == TreeOid(hash, es)
    && SortedSubs(node.down)
    && (forall s :: s in node.down ==> IsDir(es, s.name) && Agrees(hash, s.child, Under(es, s.name)))
    && (forall c :: IsDir(es, c) ==> exists s :: s in node.down && s.name == c)
  }

  /** What holds at all times: a valid node agrees with the entries, and below any node the same holds. */
  ghost predicate Inv(hash: Hash, node: Node, es: seq<Entry>, root: bool)
  {
    && (node.entry_count >= 0 ==> Agrees(hash, node, es) && (root || es != []))
    && SortedSubs(node.down)
    && (forall s :: s in node.down ==> '/' !in s.name && Inv(hash, s.child, Under(es, s.name), false))
  }

  /** An agreeing node has only valid descendants, all agreeing. */
  lemma {:induction false} AgreesInv(hash: Hash, node: Node, es: seq<Entry>)
    requires Agrees(hash, node, es)
    ensures Inv(hash, node, es, true) && (es != [] ==> Inv(hash, node, es, false))
  {
    forall s | s in node.down ensures '/' !in s.name && Inv(hash, s.child, Under(es, s.name), false) {
      var e :| e in es && HasSlash(e.name) && First(e.name) == s.name;
      FirstIs(e.name, s.name);
      UnderHas(es, s.name, e);
      AgreesInv(hash, s.child, Under(es, s.name));
    }
  }

  lemma {:induction false} UnderHas(es: seq<Entry>, c: string, e: Entry)
    requires e in es && HasPrefix(e.name, c + "/")
    ensures e.(name := e.name[|c| + 1..]) in Under(es, c)
  {
    if e != es[0] { UnderHas(es[1..], c, e); }
  }

  // ---------------------------------------------------------------------------------------------
  // Two trees that agree with the same entries are the same tree

  /** A node without the scratch fields of its subtrees. */
  datatype Bare = Bare(entry_count: int, oid: Oid, names: seq<string>, nodes: seq<Bare>)

  ghost function Bared(node: Node): Bare
  {
    Bare(node.entry_count, node.oid, Names(node.down), BaredAll(node.down))
  }

  ghost function Names(down: seq<Sub>): (r: seq<string>)
    ensures |r| == |down| && forall i :: 0 <= i < |r| ==> r[i] == down[i].name
  {
    seq(|down|, i requires 0 <= i < |down| => down[i].name)
  }

  ghost function BaredAll(down: seq<Sub>): (r: seq<Bare>)
    ensures |r| == |down| && forall i :: 0 <= i < |r| ==> r[i] == Bared(down[i].child)
  {
    if down == [] then [] else [Bared(down[0].child)] + BaredAll(down[1..])
  }

  ghost predicate Ascending(xs: seq<string>) { forall i, j :: 0 <= i < j < |xs| ==> NameLt(xs[i], xs[j]) }

  lemma Occupied(ys: seq<string>)
    requires ys != []
    ensures ys[0] in ys
  {
  }

  lemma {:induction false} AscendingUnique(xs: seq<string>, ys: seq<string>)
    requires Ascending(xs) && Ascending(ys) && forall x :: x in xs <==> x in ys
    ensures xs == ys
  {
    hide NameLt;
    if xs == [] {
      if ys != [] {
        Occupied(ys);
        assert false;
      }
    } else {
      assert xs[0] in ys && (ys == [] || ys[0] in xs);
      NameLtTotal(xs[0], ys[0]);
      assert xs[0] == ys[0];
      forall x ensures x in xs[1..] <==> x in ys[1..] {
        NameLtTotal(x, x);
        assert x in xs <==> x == xs[0] || x in xs[1..];
        assert x in ys <==> x == ys[0] || x in ys[1..];
        assert xs[0] !in xs[1..] && ys[0] !in ys[1..];
      }
      AscendingUnique(xs[1..], ys[1..]);
    }
  }

  lemma AgreesNames(hash: Hash, node: Node, es: seq<Entry>)
    requires Agrees(hash, node, es)
    ensures Ascending(Names(node.down)) && forall c :: c in Names(node.down) <==> IsDir(es, c)
    ensures node.entry_count == |es| && node.oid == TreeOid(hash, es)
  {
    hide NameLt, TreeOid;
    forall c | IsDir(es, c) ensures c in Names(node.down) {
      var s :| s in node.down && s.name == c;
      var i :| 0 <= i < |node.down| && node.down[i] == s;
      assert Names(node.down)[i] == c;
    }
    forall c | c in Names(node.down) ensures IsDir(es, c) {
      var i :| 0 <= i < |node.down| && Names(node.down)[i] == c;
      assert node.down[i] in node.down;
    }
  }

  lemma AgreesChild(hash: Hash, node: Node, es: seq<Entry>, i: nat)
    requires Agrees(hash, node, es) && i < |node.down|
    ensures Agrees(hash, node.down[i].child, Under(es, node.down[i].name))
  {
    hide NameLt, TreeOid, IsDir, Under;
    assert node.down[i] in node.down;
  }

  /** Counts, hashes, names and children: agreement determines the whole tree. */
  lemma {:induction false} AgreeUnique(hash: Hash, a: Node, b: Node, es: seq<Entry>)
    requires Agrees(hash, a, es) && Agrees(hash, b, es)
    ensures Bared(a) == Bared(b)
  {
    hide Agrees, NameLt, TreeOid, IsDir, Under, Ascending;
    AgreesNames(hash, a, es);
    AgreesNames(hash, b, es);
    AscendingUnique(Names(a.down), Names(b.down));
    forall i | 0 <= i < |a.down| ensures Bared(a.down[i].child) == Bared(b.down[i].child) {
      AgreesChild(hash, a, es, i);
      AgreesChild(hash, b, es, i);
      assert Names(a.down)[i] == Names(b.down)[i];
      AgreeUnique(hash, a.down[i].child, b.down[i].child, Under(es, a.down[i].name));
    }
    assert BaredAll(a.down) == BaredAll(b.down);
  }
}
