/**
 Which rule is asked before which, and from which directory each is matched (read_attr, prepare_attr_stack and
 fill, git-2.15.0/attr.c): said of the files and of the directories of the path.
 */
module AttrOrder {

  import opened AttrStack
  import opened AttrFill

  /** The directories on the way to a path end before its slashes, and where its directory part ends. */
  ghost predicate EndsDir(path: string, dirlen: nat, end: nat)
    requires dirlen <= |path|
  {
    0 < end <= dirlen && (end == dirlen || path[end] == '/')
  }

  /** The first slash, or the end of the directory part. */
  lemma {:induction false} SkipsToSlash(path: string, dirlen: nat, len: nat)
    requires len <= dirlen <= |path|
    ensures var e := SkipName(path, dirlen, len);
      (e < dirlen ==> path[e] == '/') && forall j :: len <= j < e ==> path[j] != '/'
    decreases dirlen - len
  {
    if len < dirlen && path[len] != '/' { SkipsToSlash(path, dirlen, len + 1); }
  }

  lemma {:induction false} EndsFrom(path: string, dirlen: nat, len: nat, end: nat)
    requires len <= dirlen <= |path|
    ensures end in Ends(path, dirlen, len) <==> len < end <= dirlen && (end == dirlen || path[end] == '/')
    decreases dirlen - len
  {
    hide SkipName;
    if len < dirlen {
      var next := Next(path, dirlen, len);
      SkipsToSlash(path, dirlen, if path[len] == '/' then len + 1 else len);
      EndsFrom(path, dirlen, next, end);
      assert Ends(path, dirlen, len) == [next] + Ends(path, dirlen, next);
    }
  }

  /** A rule of the file in a directory on the way to the path, matched from there. */
  ghost predicate OfDirectory(files: Files, path: string, dirlen: nat, p: Placed)
    requires dirlen <= |path|
  {
    exists end: nat :: EndsDir(path, dirlen, end) && p.base == path[..end]
      && p.rule in files.read(path[..end] + "/.gitattributes", false)
  }

  /** A rule that is matched from the top of the working tree. */
  ghost predicate OfTop(files: Files, p: Placed)
  {
    && p.base == ""
    && (|| p.rule in files.builtin
        || (files.system.Some? && p.rule in files.system.value)
        || (files.home.Some? && p.rule in files.home.value)
        || p.rule in files.read(".gitattributes", true)
        || (files.info.Some? && p.rule in files.info.value))
  }

  lemma {:induction false} RulesDownHas(rules: seq<Rule>, base: string, p: Placed)
    ensures p in RulesDown(rules, base) <==> p.rule in rules && p.base == base
  {
    if rules != [] {
      RulesDownHas(rules[..|rules| - 1], base, p);
      assert rules == rules[..|rules| - 1] + [rules[|rules| - 1]];
    }
  }

  lemma OrderConcat(a: seq<Frame>, b: seq<Frame>)
    ensures Order(a + b) == Order(b) + Order(a)
  {
    hide RulesDown;
    if b == [] {
      assert a + b == a;
    } else {
      assert (a + b)[..|a + b| - 1] == a + b[..|b| - 1];
      OrderConcat(a, b[..|b| - 1]);
    }
  }

  lemma OneFrame(f: Frame, p: Placed)
    ensures Order([f]) == RulesDown(f.rules, BaseOf(f))
    ensures p in Order([f]) <==> p.rule in f.rules && p.base == if f.origin.Some? then f.origin.value else ""
  {
    assert [f][..0] == [];
    RulesDownHas(f.rules, BaseOf(f), p);
  }

  lemma {:induction false} DirRules(files: Files, path: string, ends: seq<nat>, p: Placed)
    requires forall i :: 0 <= i < |ends| ==> ends[i] <= |path|
    ensures p in Order(DirFrames(files, path, ends)) <==>
      exists end :: end in ends && p.base == path[..end] && p.rule in files.read(path[..end] + "/.gitattributes", false)
  {
    hide Order, RulesDown;
    if ends == [] {
      assert DirFrames(files, path, ends) == [];
      OrderEmpty();
    } else {
      var n := |ends| - 1;
      var front, last := ends[..n], ends[n];
      DirRules(files, path, front, p);
      assert DirFrames(files, path, ends) == DirFrames(files, path, front) + [DirFrame(files, path[..last])];
      OrderConcat(DirFrames(files, path, front), [DirFrame(files, path[..last])]);
      OneFrame(DirFrame(files, path[..last]), p);
      assert DirFrame(files, path[..last]).rules == files.read(path[..last] + "/.gitattributes", false) by {
        SameName(path[..last]);
      }
      assert ends == front + [last];
    }
  }

  lemma SameName(dir: string)
    ensures dir + "/" + GITATTRIBUTES_FILE == dir + "/.gitattributes"
  {
  }

  lemma OrderEmpty()
    ensures Order([]) == []
  {
  }

  /** All rules of all files that a path calls for, each matched from the directory of its file, and no other. */
  lemma RulesOfPath(files: Files, path: string, dirlen: nat, p: Placed)
    requires dirlen <= |path|
    ensures p in Order(StackFor(files, path, dirlen)) <==> OfTop(files, p) || OfDirectory(files, path, dirlen, p)
  {
    hide Order, RulesDown, Ends, DirFrames;
    var ends := Ends(path, dirlen, 0);
    var dirs := DirFrames(files, path, ends);
    OrderConcat(Base(files) + [Root(files)] + dirs, [Info(files)]);
    OrderConcat(Base(files) + [Root(files)], dirs);
    OrderConcat(Base(files), [Root(files)]);
    OneFrame(Info(files), p);
    OneFrame(Root(files), p);
    DirRules(files, path, ends, p);
    BaseRules(files, p);
    forall end: nat ensures end in ends <==> EndsDir(path, dirlen, end) { EndsFrom(path, dirlen, 0, end); }
  }

  lemma BaseRules(files: Files, p: Placed)
    ensures p in Order(Base(files)) <==>
      && p.base == ""
      && (|| p.rule in files.builtin
          || (files.system.Some? && p.rule in files.system.value)
          || (files.home.Some? && p.rule in files.home.value))
  {
    hide Order, RulesDown;
    var b := [Frame(None, files.builtin)];
    var s: seq<Frame> := if files.system.Some? then [Frame(None, files.system.value)] else [];
    var h: seq<Frame> := if files.home.Some? then [Frame(None, files.home.value)] else [];
    OrderConcat(b + s, h);
    OrderConcat(b, s);
    OrderEmpty();
    OneFrame(b[0], p);
    if s != [] { OneFrame(s[0], p); }
    if h != [] { OneFrame(h[0], p); }
  }

  // ---------------------------------------------------------------------------------------------
  // What comes first

  /** How many rules the frames have. */
  ghost function RuleCount(stack: seq<Frame>): nat {
    if stack == [] then 0 else |stack[|stack| - 1].rules| + RuleCount(stack[..|stack| - 1])
  }

  lemma {:induction false} RulesDownAt(rules: seq<Rule>, base: string, i: nat)
    requires i < |rules|
    ensures |RulesDown(rules, base)| == |rules|
    ensures RulesDown(rules, base)[|rules| - 1 - i] == Placed(rules[i], base)
  {
    RulesDownSize(rules, base);
    if i < |rules| - 1 { RulesDownAt(rules[..|rules| - 1], base, i); }
  }

  lemma {:induction false} RulesDownSize(rules: seq<Rule>, base: string)
    ensures |RulesDown(rules, base)| == |rules|
  {
    if rules != [] { RulesDownSize(rules[..|rules| - 1], base); }
  }

  lemma {:induction false} OrderSize(stack: seq<Frame>)
    ensures |Order(stack)| == RuleCount(stack)
  {
    hide RulesDown;
    if stack != [] {
      var top := stack[|stack| - 1];
      RulesDownSize(top.rules, BaseOf(top));
      OrderSize(stack[..|stack| - 1]);
    }
  }

  /** Line i of frame f comes after all lines of the frames above it, and after the lines below it in its file. */
  lemma OrderAt(stack: seq<Frame>, f: nat, i: nat)
    requires f < |stack| && i < |stack[f].rules|
    ensures var k := RuleCount(stack[f + 1..]) + (|stack[f].rules| - 1 - i);
      && k < |Order(stack)| && Order(stack)[k].rule == stack[f].rules[i]
      && |Order(stack)| == RuleCount(stack)
  {
    hide Order, RulesDown, RuleCount;
    var rules := stack[f].rules;
    assert stack == stack[..f] + ([stack[f]] + stack[f + 1..]);
    OrderConcat(stack[..f], [stack[f]] + stack[f + 1..]);
    OrderConcat([stack[f]], stack[f + 1..]);
    OneFrame(stack[f], Placed(rules[i], ""));
    OrderSize(stack[f + 1..]);
    OrderSize(stack);
    RulesDownAt(rules, BaseOf(stack[f]), i);
  }

  /**
   The frames of a path, from the bottom: built-in, system, home, the top of the working tree, every directory
   on the way, outermost first, and info.
   */
  lemma StackShape(files: Files, path: string, dirlen: nat)
    requires dirlen <= |path|
    ensures var stack := StackFor(files, path, dirlen);
      var s, h := if files.system.Some? then 1 else 0, if files.home.Some? then 1 else 0;
      var ends := Ends(path, dirlen, 0);
      && |stack| == 3 + s + h + |ends|
      && stack[0] == Frame(None, files.builtin)
      && (files.system.Some? ==> stack[1] == Frame(None, files.system.value))
      && (files.home.Some? ==> stack[1 + s] == Frame(None, files.home.value))
      && stack[1 + s + h] == Frame(Some(""), files.read(".gitattributes", true))
      && (forall i :: 0 <= i < |ends| ==> stack[2 + s + h + i].origin == Some(path[..ends[i]]))
      && stack[|stack| - 1] == Frame(None, if files.info.Some? then files.info.value else [])
    ensures forall end: nat :: end in Ends(path, dirlen, 0) <==> EndsDir(path, dirlen, end)
    ensures forall i, j :: 0 <= i < j < |Ends(path, dirlen, 0)| ==>
      Ends(path, dirlen, 0)[i] <= Ends(path, dirlen, 0)[j]
  {
    hide Ends;
    forall end: nat ensures end in Ends(path, dirlen, 0) <==> EndsDir(path, dirlen, end) {
      EndsFrom(path, dirlen, 0, end);
    }
    forall i, j | 0 <= i < j < |Ends(path, dirlen, 0)|
      ensures Ends(path, dirlen, 0)[i] <= Ends(path, dirlen, 0)[j] {
      EndsGrow(path, dirlen, 0, i, j);
    }
  }

  /** Of a line, the last assignment comes first. */
  lemma {:induction false} LineAt(states: seq<State>, i: nat)
    requires i < |states|
    ensures |Rev(states)| == |states| && Rev(states)[|states| - 1 - i] == states[i]
  {
    var n := |states| - 1;
    RevSize(states);
    if i < n { LineAt(states[..n], i); }
  }

  lemma {:induction false} RevSize(states: seq<State>)
    ensures |Rev(states)| == |states|
  {
    if states != [] { RevSize(states[..|states| - 1]); }
  }

  /** The definition of a macro is the one that is asked first. */
  lemma {:induction false} MacroIs(order: seq<Placed>, a: nat, k: nat)
    requires k < |order| && order[k].rule.isMacro && order[k].rule.attr == a
    requires forall j :: 0 <= j < k ==> !(order[j].rule.isMacro && order[j].rule.attr == a)
    ensures MacroIn(order, a) == Some(order[k].rule)
  {
    if k > 0 { MacroIs(order[1..], a, k - 1); }
  }

  /** What matches asks for its assignments, and definitions ask for none. */
  lemma ScriptOne(p: Placed, rest: seq<Placed>, match_: Matcher)
    ensures Script([p], match_) == if match_(p.rule.pattern, p.base) && !p.rule.isMacro then Rev(p.rule.states) else []
    ensures Script([p] + rest, match_) == Script([p], match_) + Script(rest, match_)
  {
    hide Rev;
    assert [p][1..] == [] && ([p] + rest)[1..] == rest && Script([], match_) == [];
  }

  /** Rule after rule. */
  lemma {:induction false} ScriptConcat(a: seq<Placed>, b: seq<Placed>, match_: Matcher)
    ensures Script(a + b, match_) == Script(a, match_) + Script(b, match_)
  {
    if a == [] {
      assert a + b == b && Script(a, match_) == [];
    } else {
      hide *;
      ScriptOne(a[0], a[1..], match_);
      ScriptOne(a[0], a[1..] + b, match_);
      ScriptConcat(a[1..], b, match_);
      assert [a[0]] + a[1..] == a && [a[0]] + (a[1..] + b) == a + b;
      Associate(Script([a[0]], match_), Script(a[1..], match_), Script(b, match_));
    }
  }

  lemma Associate(a: seq<State>, b: seq<State>, c: seq<State>)
    ensures a + (b + c) == (a + b) + c
  {
  }
}
