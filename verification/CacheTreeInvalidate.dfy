/**
 do_invalidate_path, and why it is enough after any edit of the index (git-2.15.0/cache-tree.c).
 */
module CacheTreeInvalidate {
  import opened PathNames
  import opened CacheTree

  // ---------------------------------------------------------------------------------------------
  // Looking up subtrees

  /** subtree_pos: the position of a subtree, or one less than minus the position it would go to. */
  method SubtreePos(down: seq<Sub>, path: string) returns (pos: int)
    requires SortedSubs(down)
    ensures pos >= 0 ==> pos < |down| && down[pos].name == path
    ensures pos < 0 ==> -pos - 1 <= |down|
    ensures pos < 0 ==> forall i :: 0 <= i < |down| ==>
      (if i < -pos - 1 then NameLt(down[i].name, path) else NameLt(path, down[i].name))
  {
    hide NameLt;
    var lo, hi := 0, |down|;
    while lo < hi
      invariant 0 <= lo <= hi <= |down|
      invariant forall i :: 0 <= i < lo ==> NameLt(down[i].name, path)
      invariant forall i :: hi <= i < |down| ==> NameLt(path, down[i].name)
    {
      var mi := lo + (hi - lo) / 2;
      var cmp := SubtreeNameCmp(path, down[mi].name);
      if cmp == 0 { return mi; }
      if cmp < 0 {
        forall i | mi < i < |down| ensures NameLt(path, down[i].name) {
          NameLtTransitive(path, down[mi].name, down[i].name);
        }
        hi := mi;
      } else {
        forall i | 0 <= i < mi ensures NameLt(down[i].name, path) {
          NameLtTransitive(down[i].name, down[mi].name, path);
        }
        lo := mi + 1;
      }
    }
    return -lo - 1;
  }

  /** A name is at one position at most. */
  lemma OnePosition(down: seq<Sub>, i: nat, j: nat)
    requires SortedSubs(down) && i < |down| && j < |down| && down[i].name == down[j].name
    ensures i == j
  {
    NameLtTotal(down[i].name, down[j].name);
  }

  // ---------------------------------------------------------------------------------------------
  // Invalidation

  /** Marks the nodes along path invalid; a subtree in the place of the edited entry itself goes. */
  ghost function Invalidate(node: Node, path: string): Node
    decreases |path|, 0
  {
    if HasSlash(path)
    then node.(entry_count := -1, down := InvalidateIn(node.down, First(path), path[|First(path)| + 1..]))
    else node.(entry_count := -1, down := Without(node.down, path))
  }

  ghost function InvalidateIn(down: seq<Sub>, c: string, rest: string): (r: seq<Sub>)
    ensures |r| == |down|
    decreases |rest|, |down| + 1
  {
    if down == [] then []
    else [if down[0].name == c then down[0].(child := Invalidate(down[0].child, rest)) else down[0]]
         + InvalidateIn(down[1..], c, rest)
  }

  ghost function Without(down: seq<Sub>, name: string): seq<Sub>
  {
    if down == [] then [] else (if down[0].name == name then [] else [down[0]]) + Without(down[1..], name)
  }

  lemma {:induction false} WithoutAbsent(down: seq<Sub>, name: string)
    requires forall i :: 0 <= i < |down| ==> down[i].name != name
    ensures Without(down, name) == down
  {
    if down != [] { WithoutAbsent(down[1..], name); }
  }

  lemma {:induction false} WithoutAt(down: seq<Sub>, name: string, pos: nat)
    requires SortedSubs(down) && pos < |down| && down[pos].name == name
    ensures Without(down, name) == down[..pos] + down[pos + 1..]
  {
    forall i | 0 <= i < |down| && i != pos ensures down[i].name != name {
      if down[i].name == name { OnePosition(down, i, pos); }
    }
    if pos == 0 {
      WithoutAbsent(down[1..], name);
    } else {
      WithoutAt(down[1..], name, pos - 1);
      assert down[1..][..pos - 1] == down[1..pos] && down[1..][pos..] == down[pos + 1..];
    }
  }

  lemma {:induction false} InvalidateInAbsent(down: seq<Sub>, c: string, rest: string)
    requires forall i :: 0 <= i < |down| ==> down[i].name != c
    ensures InvalidateIn(down, c, rest) == down
  {
    if down != [] { InvalidateInAbsent(down[1..], c, rest); }
  }

  lemma {:induction false} InvalidateInAt(down: seq<Sub>, c: string, rest: string, pos: nat)
    requires SortedSubs(down) && pos < |down| && down[pos].name == c
    ensures InvalidateIn(down, c, rest) == down[pos := down[pos].(child := Invalidate(down[pos].child, rest))]
  {
    forall i | 0 <= i < |down| && i != pos ensures down[i].name != c {
      if down[i].name == c { OnePosition(down, i, pos); }
    }
    if pos == 0 {
      InvalidateInAbsent(down[1..], c, rest);
    } else {
      InvalidateInAt(down[1..], c, rest, pos - 1);
    }
  }

  /** Every node's subtrees are in order. */
  ghost predicate Ordered(node: Node)
  {
    SortedSubs(node.down) && forall s :: s in node.down ==> Ordered(s.child)
  }

  /** The subtree with this name is the next one on the way to path, or what is in the place of path itself. */
  ghost predicate Touched(name: string, path: string) { name == if HasSlash(path) then First(path) else path }

  lemma StepKeeps(it: Node, path: string)
    requires SortedSubs(it.down)
    ensures var it' := Invalidate(it, path);
      && it'.entry_count == -1 && it'.oid == it.oid && SortedSubs(it'.down)
      && (forall s :: s in it.down && !Touched(s.name, path) ==> s in it'.down)
      && (forall s' :: s' in it'.down && !Touched(s'.name, path) ==> s' in it.down)
      && (!HasSlash(path) ==> forall s' :: s' in it'.down ==> s'.name != path)
      && (HasSlash(path) ==> Names(it'.down) == Names(it.down))
  {
    hide NameLt;
    if HasSlash(path) {
      var c, rest := First(path), path[|First(path)| + 1..];
      InvalidateInNames(it.down, c, rest);
      InvalidateInHas(it.down, c, rest);
    } else {
      WithoutHas(it.down, path);
      WithoutSorted(it.down, path);
    }
  }

  /**
   do_invalidate_path, on a node that is there.  A subtree with the name of path goes, the next one on the way to
   path stays in its place, and all others stay as they are.
   */
  method DoInvalidatePath(it: Node, path: string) returns (it': Node)
    requires Ordered(it)
    ensures it' == Invalidate(it, path)
    ensures it'.entry_count == -1 && it'.oid == it.oid && SortedSubs(it'.down)
    ensures forall s :: s in it.down && !Touched(s.name, path) ==> s in it'.down
    ensures forall s' :: s' in it'.down && !Touched(s'.name, path) ==> s' in it.down
    ensures !HasSlash(path) ==> forall s' :: s' in it'.down ==> s'.name != path
    ensures HasSlash(path) ==> Names(it'.down) == Names(it.down)
    decreases |path|
  {
    hide NameLt, Touched;
    StepKeeps(it, path);
    var namelen := Slash(path);
    var name := path[..namelen];
    it' := it.(entry_count := -1);
    var pos := SubtreePos(it.down, name);
    if namelen == |path| {
      assert name == path;
      if 0 <= pos {
        WithoutAt(it.down, path, pos);
        it' := it'.(down := it.down[..pos] + it.down[pos + 1..]);
      } else {
        Missing(it.down, name, pos);
        WithoutAbsent(it.down, path);
      }
      return;
    }
    if 0 <= pos {
      InvalidateInAt(it.down, name, path[namelen + 1..], pos);
      assert it.down[pos] in it.down;
      var child := DoInvalidatePath(it.down[pos].child, path[namelen + 1..]);
      it' := it'.(down := it.down[pos := it.down[pos].(child := child)]);
    } else {
      Missing(it.down, name, pos);
      InvalidateInAbsent(it.down, name, path[namelen + 1..]);
    }
  }

  // ---------------------------------------------------------------------------------------------
  // What becomes of every node

  /** The path of a directory, from the names on the way to it. */
  ghost function Way(names: seq<string>): string {
    if names == [] then "" else names[0] + "/" + Way(names[1..])
  }

  ghost predicate Plain(names: seq<string>) { forall c :: c in names ==> '/' !in c }

  /** Node n is where these names lead. */
  ghost predicate Leads(node: Node, names: seq<string>, n: Node)
  {
    if names == [] then n == node
    else exists s :: s in node.down && s.name == names[0] && Leads(s.child, names[1..], n)
  }

  lemma WayOn(path: string, c: string, w: string)
    requires '/' !in c
    ensures HasPrefix(path, c + "/" + w) <==>
      HasSlash(path) && First(path) == c && HasPrefix(path[|c| + 1..], w)
  {
    FirstIs(path, c);
    var p := c + "/";
    assert c + "/" + w == p + w && |p| == |c| + 1;
    if HasPrefix(path, p + w) {
      assert path[..|p|] == path[..|p + w|][..|p|] == p;
      assert path[|p|..][..|w|] == path[..|p + w|][|p|..] == w;
    }
    if HasPrefix(path, p) && HasPrefix(path[|p|..], w) {
      assert path[..|p + w|] == path[..|p|] + path[|p|..][..|w|];
    }
  }

  lemma WayBehind(path: string, c: string, w: string)
    requires '/' !in c
    ensures HasSlash(path) ==>
      (HasPrefix(c + "/" + w, path + "/") <==> First(path) == c && HasPrefix(w, path[|First(path)| + 1..] + "/"))
    ensures !HasSlash(path) ==> (HasPrefix(c + "/" + w, path + "/") <==> c == path)
  {
    var s := c + "/" + w;
    SlashAt(c, w);
    assert s[..|c|] == c && s[|c| + 1..] == w;
    if HasSlash(path) {
      var f, rest := First(path), path[|First(path)| + 1..];
      assert path + "/" == f + "/" + (rest + "/");
      WayOn(s, f, rest + "/");
    } else {
      assert path + "/" == path + "/" + "";
      assert path == path[..Slash(path)];
      WayOn(s, path, "");
    }
  }

  lemma {:induction false} WithoutHas(down: seq<Sub>, name: string)
    ensures forall s :: s in Without(down, name) <==> s in down && s.name != name
  {
    if down != [] {
      WithoutHas(down[1..], name);
      assert down == [down[0]] + down[1..];
    }
  }

  lemma {:induction false} InvalidateInHas(down: seq<Sub>, c: string, rest: string)
    ensures forall s: Sub :: s.name != c ==> (s in InvalidateIn(down, c, rest) <==> s in down)
    ensures forall s: Sub :: s in down && s.name == c ==>
      s.(child := Invalidate(s.child, rest)) in InvalidateIn(down, c, rest)
    ensures forall s' :: s' in InvalidateIn(down, c, rest) && s'.name == c ==>
      exists s :: s in down && s' == s.(child := Invalidate(s.child, rest))
  {
    if down != [] {
      InvalidateInHas(down[1..], c, rest);
      assert down == [down[0]] + down[1..];
    }
  }

  /** A node that is neither on the way to path nor in its place or below stays as it is, with all below it. */
  lemma {:induction false} InvalidateElsewhere(it: Node, path: string, names: seq<string>, n: Node)
    requires Plain(names) && !HasPrefix(path, Way(names)) && !HasPrefix(Way(names), path + "/")
    ensures Leads(Invalidate(it, path), names, n) <==> Leads(it, names, n)
    decreases |names|
  {
    if names != [] {
      var c, it' := names[0], Invalidate(it, path);
      WayOn(path, c, Way(names[1..]));
      WayBehind(path, c, Way(names[1..]));
      if HasSlash(path) {
        var rest := path[|First(path)| + 1..];
        InvalidateInHas(it.down, First(path), rest);
        if First(path) == c {
          forall s | s in it.down && s.name == c
            ensures Leads(Invalidate(s.child, rest), names[1..], n) <==> Leads(s.child, names[1..], n) {
            InvalidateElsewhere(s.child, rest, names[1..], n);
          }
        }
      } else {
        WithoutHas(it.down, path);
      }
    }
  }

  /** What is in the place of path or below goes. */
  lemma {:induction false} InvalidateGone(it: Node, path: string, names: seq<string>, n: Node)
    requires Plain(names) && HasPrefix(Way(names), path + "/")
    ensures !Leads(Invalidate(it, path), names, n)
    decreases |names|
  {
    var c := names[0];
    WayBehind(path, c, Way(names[1..]));
    if HasSlash(path) {
      var rest := path[|First(path)| + 1..];
      InvalidateInHas(it.down, c, rest);
      forall s | s in it.down && s.name == c ensures !Leads(Invalidate(s.child, rest), names[1..], n) {
        InvalidateGone(s.child, rest, names[1..], n);
      }
    } else {
      WithoutHas(it.down, path);
    }
  }

  lemma {:induction false} OnWayBack(it: Node, path: string, names: seq<string>, n': Node) returns (n: Node)
    requires Plain(names) && HasPrefix(path, Way(names)) && Leads(Invalidate(it, path), names, n')
    ensures n'.entry_count == -1 && n'.oid == n.oid && Leads(it, names, n)
    decreases |names|
  {
    n := it;
    if names != [] {
      var c, it' := names[0], Invalidate(it, path);
      WayOn(path, c, Way(names[1..]));
      var rest := path[|c| + 1..];
      InvalidateInHas(it.down, c, rest);
      var s' :| s' in it'.down && s'.name == c && Leads(s'.child, names[1..], n');
      var s :| s in it.down && s' == s.(child := Invalidate(s.child, rest));
      n := OnWayBack(s.child, rest, names[1..], n');
    }
  }

  lemma {:induction false} OnWayForth(it: Node, path: string, names: seq<string>, n: Node) returns (n': Node)
    requires Plain(names) && HasPrefix(path, Way(names)) && Leads(it, names, n)
    ensures n'.oid == n.oid && Leads(Invalidate(it, path), names, n')
    decreases |names|
  {
    n' := Invalidate(it, path);
    if names != [] {
      var c, it' := names[0], Invalidate(it, path);
      WayOn(path, c, Way(names[1..]));
      var rest := path[|c| + 1..];
      InvalidateInHas(it.down, c, rest);
      var s :| s in it.down && s.name == c && Leads(s.child, names[1..], n);
      n' := OnWayForth(s.child, rest, names[1..], n);
      assert s.(child := Invalidate(s.child, rest)) in it'.down;
    }
  }

  /** A node on the way to path, the root first, stays with its id and becomes invalid. */
  lemma InvalidateOnWay(it: Node, path: string, names: seq<string>)
    requires Plain(names) && HasPrefix(path, Way(names))
    ensures forall n' :: Leads(Invalidate(it, path), names, n') ==>
      n'.entry_count == -1 && exists n :: Leads(it, names, n) && n'.oid == n.oid
    ensures forall n :: Leads(it, names, n) ==>
      exists n' :: Leads(Invalidate(it, path), names, n') && n'.oid == n.oid
  {
    hide *;
    forall n' | Leads(Invalidate(it, path), names, n')
      ensures n'.entry_count == -1 && exists n :: Leads(it, names, n) && n'.oid == n.oid {
      var n := OnWayBack(it, path, names, n');
    }
    forall n | Leads(it, names, n) ensures exists n' :: Leads(Invalidate(it, path), names, n') && n'.oid == n.oid {
      var n' := OnWayForth(it, path, names, n);
    }
  }

  lemma Missing(down: seq<Sub>, name: string, pos: int)
    requires pos < 0 && -pos - 1 <= |down|
    requires forall i :: 0 <= i < |down| ==>
      (if i < -pos - 1 then NameLt(down[i].name, name) else NameLt(name, down[i].name))
    ensures forall i :: 0 <= i < |down| ==> down[i].name != name
  {
    hide NameLt;
    forall i | 0 <= i < |down| ensures down[i].name != name { NameLtTotal(down[i].name, name); }
  }

  // ---------------------------------------------------------------------------------------------
  // Edits

  /** The entries at other paths than path. */
  ghost function Others(es: seq<Entry>, path: string): seq<Entry>
  {
    if es == [] then [] else (if es[0].name == path then [] else [es[0]]) + Others(es[1..], path)
  }

  /** An edit of one path: an entry added, removed or changed there, nothing else. */
  ghost predicate Edited(es: seq<Entry>, es': seq<Entry>, path: string) { Others(es, path) == Others(es', path) }

  lemma {:induction false} UnderOthers(es: seq<Entry>, c: string, path: string)
    requires !HasPrefix(path, c + "/")
    ensures Under(Others(es, path), c) == Under(es, c)
  {
    if es != [] {
      UnderOthers(es[1..], c, path);
      UnderCons(es[0], Others(es[1..], path), c);
    }
  }

  lemma UnderCons(e: Entry, es: seq<Entry>, c: string)
    ensures Under([e] + es, c)
      == (if HasPrefix(e.name, c + "/") then [e.(name := e.name[|c| + 1..])] else []) + Under(es, c)
    ensures Under([] + es, c) == Under(es, c)
  {
    assert ([e] + es)[1..] == es && [] + es == es;
  }

  lemma OthersCons(e: Entry, es: seq<Entry>, path: string)
    ensures Others([e] + es, path) == (if e.name == path then [] else [e]) + Others(es, path)
    ensures Others([] + es, path) == Others(es, path)
  {
    assert ([e] + es)[1..] == es && [] + es == es;
  }

  lemma {:induction false} OthersUnder(es: seq<Entry>, c: string, rest: string)
    ensures Others(Under(es, c), rest) == Under(Others(es, c + "/" + rest), c)
  {
    if es != [] {
      var e, path := es[0], c + "/" + rest;
      OthersUnder(es[1..], c, rest);
      UnderCons(e, Others(es[1..], path), c);
      OthersCons(e.(name := if HasPrefix(e.name, c + "/") then e.name[|c| + 1..] else ""), Under(es[1..], c), rest);
      if HasPrefix(e.name, c + "/") {
        assert e.name == c + "/" + e.name[|c| + 1..];
        assert e.name == path <==> e.name[|c| + 1..] == rest by {
          assert path[|c| + 1..] == rest;
        }
      } else {
        assert HasPrefix(path, c + "/");
        assert e.name != path;
      }
    }
  }

  /** What an edit of path is, seen from directory c. */
  lemma EditedUnder(es: seq<Entry>, es': seq<Entry>, path: string, c: string)
    requires Edited(es, es', path) && '/' !in c
    ensures !(HasSlash(path) && First(path) == c) ==> Under(es, c) == Under(es', c)
    ensures HasSlash(path) && First(path) == c ==> Edited(Under(es, c), Under(es', c), path[|c| + 1..])
  {
    FirstIs(path, c);
    if HasSlash(path) && First(path) == c {
      OthersUnder(es, c, path[|c| + 1..]);
      OthersUnder(es', c, path[|c| + 1..]);
    } else {
      UnderOthers(es, c, path);
      UnderOthers(es', c, path);
    }
  }

  lemma {:induction false} InvalidateInNames(down: seq<Sub>, c: string, rest: string)
    ensures forall i :: 0 <= i < |down| ==>
      InvalidateIn(down, c, rest)[i] == if down[i].name == c then down[i].(child := Invalidate(down[i].child, rest))
        else down[i]
  {
    if down != [] { InvalidateInNames(down[1..], c, rest); }
  }

  lemma {:induction false} WithoutSorted(down: seq<Sub>, name: string)
    requires SortedSubs(down)
    ensures SortedSubs(Without(down, name)) && forall s :: s in Without(down, name) ==> s in down
  {
    hide NameLt;
    if down != [] {
      WithoutSorted(down[1..], name);
      forall s | s in down[1..] ensures NameLt(down[0].name, s.name) {}
    }
  }

  /**
   After any edit of path, invalidating path restores the invariant for the edited index.
   */
  lemma {:induction false} InvalidateKeeps(hash: Hash, node: Node, es: seq<Entry>, es': seq<Entry>, path: string,
                                           root: bool)
    requires Inv(hash, node, es, root) && Edited(es, es', path)
    ensures Inv(hash, Invalidate(node, path), es', root)
    decreases |path|
  {
    hide Agrees, NameLt, Under, Others, Edited;
    var node' := Invalidate(node, path);
    if HasSlash(path) {
      var c, rest := First(path), path[|First(path)| + 1..];
      InvalidateInNames(node.down, c, rest);
      assert SortedSubs(node'.down);
      forall s' | s' in node'.down ensures '/' !in s'.name && Inv(hash, s'.child, Under(es', s'.name), false) {
        var i :| 0 <= i < |node'.down| && node'.down[i] == s';
        var s := node.down[i];
        assert s in node.down;
        EditedUnder(es, es', path, s.name);
        if s.name == c { InvalidateKeeps(hash, s.child, Under(es, c), Under(es', c), rest, false); }
      }
    } else {
      WithoutSorted(node.down, path);
      forall s | s in node'.down ensures '/' !in s.name && Inv(hash, s.child, Under(es', s.name), false) {
        EditedUnder(es, es', path, s.name);
      }
    }
  }
}
