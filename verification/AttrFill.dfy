/**
 Collecting the attributes of a path: the rules from the top of the stack down, macros expanded in place
 (fill, fill_one, macroexpand_one, determine_macros, collect_some_attrs, git-2.15.0/attr.c).
 */
module AttrFill {

  import opened AttrStack

  // ---------------------------------------------------------------------------------------------
  // The order of the walk

  function Rev(s: seq<State>): (r: seq<State>)
    ensures forall x :: x in r ==> x in s
  {
    if s == [] then [] else [s[|s| - 1]] + Rev(s[..|s| - 1])
  }

  datatype Placed = Placed(rule: Rule, base: string)

  function BaseOf(f: Frame): string {
    if f.origin.Some? then f.origin.value else ""
  }

  /** The rules of a frame, the last line first. */
  function RulesDown(rules: seq<Rule>, base: string): seq<Placed> {
    if rules == [] then [] else [Placed(rules[|rules| - 1], base)] + RulesDown(rules[..|rules| - 1], base)
  }

  /** All rules of a stack, the top frame first, later lines before earlier ones. */
  function Order(stack: seq<Frame>): seq<Placed> {
    if stack == [] then [] else
    var top := stack[|stack| - 1];
    RulesDown(top.rules, BaseOf(top)) + Order(stack[..|stack| - 1])
  }

  /** Does the pattern of a rule match the path, seen from the directory of its file? */
  type Matcher = (string, string) -> bool

  /** The assignments that rules ask for, later ones of a line first. */
  function Script(order: seq<Placed>, match_: Matcher): seq<State> {
    if order == [] then [] else
    (if !order[0].rule.isMacro && match_(order[0].rule.pattern, order[0].base) then Rev(order[0].rule.states) else [])
    + Script(order[1..], match_)
  }

  /** The definition of a macro: the first one on the way. */
  function MacroIn(order: seq<Placed>, a: nat): Option<Rule> {
    if order == [] then None else
    if order[0].rule.isMacro && order[0].rule.attr == a then Some(order[0].rule) else MacroIn(order[1..], a)
  }

  type Macros = seq<Option<Rule>>

  ghost predicate GoodStates(states: seq<State>, n: nat) {
    forall s :: s in states ==> s.attr < n && s.setto != Unknown
  }

  ghost predicate GoodRules(rules: seq<Rule>, n: nat) {
    forall i :: 0 <= i < |rules| ==> GoodStates(rules[i].states, n) && (rules[i].isMacro ==> rules[i].attr < n)
  }

  ghost predicate GoodMacros(m: Macros, n: nat) {
    |m| == n && forall a :: 0 <= a < n && m[a].Some? ==> GoodStates(m[a].value.states, n)
  }

  ghost predicate GoodOrder(order: seq<Placed>, n: nat) {
    forall i :: 0 <= i < |order| ==>
      GoodStates(order[i].rule.states, n) && (order[i].rule.isMacro ==> order[i].rule.attr < n)
  }

  // ---------------------------------------------------------------------------------------------
  // The walk without a counter

  ghost function UnknownSet(v: seq<Value>): set<nat> {
    set a: nat | a < |v| && v[a] == Unknown
  }

  ghost function Unknowns(v: seq<Value>): nat {
    |UnknownSet(v)|
  }

  /** What a true macro stands for. */
  function Expansion(m: Macros, s: State): seq<State>
    requires s.attr < |m|
  {
    if s.setto == True && m[s.attr].Some? then Rev(m[s.attr].value.states) else []
  }

  /** An unknown attribute takes its value, and the macro it turns on comes next. */
  ghost function Walk(v: seq<Value>, m: Macros, script: seq<State>): (r: seq<Value>)
    requires GoodMacros(m, |v|) && GoodStates(script, |v|)
    ensures |r| == |v| && Unknowns(r) <= Unknowns(v)
    decreases Unknowns(v), |script|
  {
    if script == [] then v else
    var s := script[0];
    if v[s.attr] != Unknown then Walk(v, m, script[1..]) else
    Assigned(v, s);
    Walk(v[s.attr := s.setto], m, Expansion(m, s) + script[1..])
  }

  lemma Assigned(v: seq<Value>, s: State)
    requires s.attr < |v| && v[s.attr] == Unknown && s.setto != Unknown
    ensures Unknowns(v[s.attr := s.setto]) == Unknowns(v) - 1
  {
    assert UnknownSet(v) == UnknownSet(v[s.attr := s.setto]) + {s.attr};
  }

  /** With nothing unknown the walk changes nothing: stopping early loses nothing. */
  lemma {:induction false} NothingLeft(v: seq<Value>, m: Macros, script: seq<State>)
    requires GoodMacros(m, |v|) && GoodStates(script, |v|) && Unknowns(v) == 0
    ensures Walk(v, m, script) == v
    decreases |script|
  {
    if script != [] {
      assert UnknownSet(v) == {};
      assert script[0].attr !in UnknownSet(v);
      NothingLeft(v, m, script[1..]);
    }
  }

  /** One after the other. */
  lemma {:induction false} WalkAppend(v: seq<Value>, m: Macros, a: seq<State>, b: seq<State>)
    requires GoodMacros(m, |v|) && GoodStates(a, |v|) && GoodStates(b, |v|)
    ensures GoodStates(a + b, |v|) && Walk(v, m, a + b) == Walk(Walk(v, m, a), m, b)
    decreases Unknowns(v), |a|
  {
    if a == [] {
      assert a + b == b;
    } else {
      var s := a[0];
      assert (a + b)[1..] == a[1..] + b;
      if v[s.attr] != Unknown {
        WalkAppend(v, m, a[1..], b);
      } else {
        Assigned(v, s);
        WalkAppend(v[s.attr := s.setto], m, Expansion(m, s) + a[1..], b);
        assert Expansion(m, s) + (a[1..] + b) == (Expansion(m, s) + a[1..]) + b;
      }
    }
  }

  // ---------------------------------------------------------------------------------------------
  // First come, first served

  ghost function Unseen(seen: set<nat>, n: nat): set<nat> {
    set a: nat | a < n && a !in seen
  }

  /**
   The assignments in the order they are met.  An attribute met for the first time whose value is true, and
   that is a macro, is followed by its definition.
   */
  ghost function Met(seen: set<nat>, m: Macros, script: seq<State>): seq<State>
    requires GoodMacros(m, |m|) && GoodStates(script, |m|)
    decreases |Unseen(seen, |m|)|, |script|
  {
    if script == [] then [] else
    var s := script[0];
    if s.attr in seen then [s] + Met(seen, m, script[1..]) else
    SeenMore(seen, s.attr, |m|);
    [s] + Met(seen + {s.attr}, m, Expansion(m, s) + script[1..])
  }

  lemma SeenMore(seen: set<nat>, a: nat, n: nat)
    requires a < n && a !in seen
    ensures |Unseen(seen + {a}, n)| < |Unseen(seen, n)|
  {
    assert Unseen(seen, n) == Unseen(seen + {a}, n) + {a};
  }

  /** The first assignment to an attribute. */
  function First(met: seq<State>, a: nat): Value {
    if met == [] then Unknown else if met[0].attr == a then met[0].setto else First(met[1..], a)
  }

  ghost function Known(v: seq<Value>): set<nat> {
    set a: nat | a < |v| && v[a] != Unknown
  }

  /** Every attribute keeps the value it had, or gets the first one it meets: it is assigned at most once. */
  lemma {:induction false} WalkIsFirst(v: seq<Value>, m: Macros, script: seq<State>, a: nat)
    requires GoodMacros(m, |v|) && GoodStates(script, |v|) && a < |v|
    ensures Walk(v, m, script)[a] == if v[a] != Unknown then v[a] else First(Met(Known(v), m, script), a)
    decreases Unknowns(v), |script|
  {
    if script != [] {
      var s := script[0];
      if v[s.attr] != Unknown {
        WalkIsFirst(v, m, script[1..], a);
      } else {
        Assigned(v, s);
        var w := v[s.attr := s.setto];
        assert Known(w) == Known(v) + {s.attr};
        WalkIsFirst(w, m, Expansion(m, s) + script[1..], a);
      }
    }
  }

  // ---------------------------------------------------------------------------------------------
  // The code

  class AttrCheck {
    const n: nat
    var stack: seq<Frame>
    var items: seq<nat>
    var value: seq<Value>
    var macro: Macros

    constructor (n: nat, items: seq<nat>)
      requires forall i :: 0 <= i < |items| ==> items[i] < n
      ensures this.n == n && this.items == items && stack == [] && |value| == n && GoodMacros(macro, n)
    {
      this.n, this.items, stack := n, items, [];
      value := seq(n, _ => Unknown);
      macro := seq(n, _ => None);
    }

    ghost predicate Ready()
      reads this
    {
      |value| == n && GoodMacros(macro, n)
    }

    /** fill_one: the assignments of one rule, the last first, as long as the counter lasts. */
    method FillOne(a: Rule, rem: int) returns (left: int)
      requires Ready() && GoodStates(a.states, n) && rem >= Unknowns(value)
      modifies this`value
      ensures Ready() && value == Walk(old(value), macro, Rev(a.states))
      ensures rem - left == Unknowns(old(value)) - Unknowns(value) >= 0
      decreases Unknowns(value), 1
    {
      hide Walk, UnknownSet, Rev, Expansion;
      left := rem;
      var i := |a.states|;
      assert a.states[..i] == a.states;
      while left > 0 && i > 0
        invariant 0 <= i <= |a.states| && Ready() && Unknowns(value) <= Unknowns(old(value))
        invariant rem - left == Unknowns(old(value)) - Unknowns(value)
        invariant Walk(value, macro, Rev(a.states[..i])) == Walk(old(value), macro, Rev(a.states))
        decreases i
      {
        i := i - 1;
        var s := a.states[i];
        RevStep(a.states, i);
        ghost var v, rest := value, Rev(a.states[..i]);
        WalkStep(v, macro, s, rest);
        if value[s.attr] == Unknown {
          Assigned(v, s);
          value := value[s.attr := s.setto];
          left := left - 1;
          left := MacroexpandOne(s.attr, left);
          ExpansionIs(macro, s);
          WalkAppend(v[s.attr := s.setto], macro, Expansion(macro, s), rest);
        }
      }
      if i > 0 {
        NothingLeft(value, macro, Rev(a.states[..i]));
      } else {
        RevNil(a.states[..i]);
        WalkNil(value, macro);
      }
    }

    /** macroexpand_one */
    method MacroexpandOne(nr: nat, rem: int) returns (left: int)
      requires Ready() && nr < n && value[nr] != Unknown && rem >= Unknowns(value)
      modifies this`value
      ensures Ready() && value == Walk(old(value), macro, Expansion(macro, State(nr, old(value)[nr])))
      ensures rem - left == Unknowns(old(value)) - Unknowns(value) >= 0
      decreases Unknowns(value), 2
    {
      hide Walk, UnknownSet;
      if macro[nr].Some? && value[nr] == True {
        left := FillOne(macro[nr].value, rem);
      } else {
        WalkNil(value, macro);
        left := rem;
      }
    }

    /** fill: all rules that match, from the top frame down, as long as the counter lasts. */
    method Fill(frames: seq<Frame>, match_: Matcher, rem: int) returns (left: int)
      requires Ready() && GoodOrder(Order(frames), n) && rem >= Unknowns(value)
      modifies this`value
      ensures Ready() && GoodStates(Script(Order(frames), match_), n)
      ensures value == Walk(old(value), macro, Script(Order(frames), match_))
      ensures rem - left == Unknowns(old(value)) - Unknowns(value)
    {
      hide Walk, UnknownSet, Script, Order, RulesDown, GoodStates, Rev;
      left := rem;
      ScriptGood(Order(frames), match_, n);
      var f := |frames|;
      assert frames[..f] == frames;
      while left > 0 && f > 0
        invariant 0 <= f <= |frames| && Ready() && GoodOrder(Order(frames[..f]), n)
        invariant Unknowns(value) <= Unknowns(old(value))
        invariant GoodStates(Script(Order(frames[..f]), match_), n)
        invariant rem - left == Unknowns(old(value)) - Unknowns(value)
        invariant Walk(value, macro, Script(Order(frames[..f]), match_))
          == Walk(old(value), macro, Script(Order(frames), match_))
      {
        f := f - 1;
        OrderStep(frames, f);
        left := FillFrame(frames[f], match_, left, Order(frames[..f]));
      }
      if f > 0 {
        NothingLeft(value, macro, Script(Order(frames[..f]), match_));
      } else {
        OrderNil(frames[..f], match_);
        WalkNil(value, macro);
      }
    }

    /** The inner loop of fill: the rules of one frame, the last first. */
    method FillFrame(frame: Frame, match_: Matcher, rem: int, ghost below: seq<Placed>) returns (left: int)
      requires Ready() && GoodOrder(RulesDown(frame.rules, BaseOf(frame)) + below, n) && rem >= Unknowns(value)
      modifies this`value
      ensures Ready() && GoodOrder(below, n) && rem - left == Unknowns(old(value)) - Unknowns(value) >= 0
      ensures GoodStates(Script(below, match_), n)
      ensures GoodStates(Script(RulesDown(frame.rules, BaseOf(frame)) + below, match_), n)
      ensures Walk(value, macro, Script(below, match_))
        == Walk(old(value), macro, Script(RulesDown(frame.rules, BaseOf(frame)) + below, match_))
    {
      hide Walk, UnknownSet, Script, RulesDown, GoodStates, Rev;
      left := rem;
      var base := BaseOf(frame);
      var i := |frame.rules|;
      assert frame.rules[..i] == frame.rules;
      ScriptGood(RulesDown(frame.rules, base) + below, match_, n);
      while left > 0 && i > 0
        invariant 0 <= i <= |frame.rules| && Ready() && GoodOrder(RulesDown(frame.rules[..i], base) + below, n)
        invariant Unknowns(value) <= Unknowns(old(value)) && rem - left == Unknowns(old(value)) - Unknowns(value)
        invariant GoodStates(Script(RulesDown(frame.rules[..i], base) + below, match_), n)
        invariant Walk(value, macro, Script(RulesDown(frame.rules[..i], base) + below, match_))
          == Walk(old(value), macro, Script(RulesDown(frame.rules, base) + below, match_))
      {
        i := i - 1;
        var a := frame.rules[i];
        ghost var rest := RulesDown(frame.rules[..i], base) + below;
        RulesStep(frame.rules, base, i, below);
        ScriptStep(Placed(a, base), rest, match_, n);
        if !a.isMacro {
          if match_(a.pattern, base) {
            WalkAppend(value, macro, Rev(a.states), Script(rest, match_));
            left := FillOne(a, left);
          }
        }
      }
      RulesEnd(frame.rules[..i], base, below, n);
      ScriptGood(below, match_, n);
      if i > 0 {
        NothingLeft(value, macro, Script(RulesDown(frame.rules[..i], base) + below, match_));
        NothingLeft(value, macro, Script(below, match_));
      }
    }

    /** determine_macros: the first definition on the way down. */
    method DetermineMacros()
      requires GoodOrder(Order(stack), n) && |macro| == n && forall a :: 0 <= a < n ==> macro[a] == None
      modifies this`macro
      ensures GoodMacros(macro, n) && forall a :: 0 <= a < n ==> macro[a] == MacroIn(Order(stack), a)
    {
      hide Order, RulesDown, GoodStates, MacroIn;
      var f := |stack|;
      assert stack[..f] == stack;
      while f > 0
        invariant 0 <= f <= |stack| && |macro| == n && GoodOrder(Order(stack[..f]), n) && GoodMacros(macro, n)
        invariant forall a :: 0 <= a < n ==>
          MacroIn(Order(stack), a) == if macro[a].Some? then macro[a] else MacroIn(Order(stack[..f]), a)
      {
        f := f - 1;
        OrderStep(stack, f);
        ghost var below := Order(stack[..f]);
        var rules := stack[f].rules;
        ghost var base := BaseOf(stack[f]);
        var i := |rules|;
        assert rules[..i] == rules;
        while i > 0
          invariant 0 <= i <= |rules| && |macro| == n && GoodOrder(RulesDown(rules[..i], base) + below, n)
          invariant GoodMacros(macro, n)
          invariant forall a :: 0 <= a < n ==>
            MacroIn(Order(stack), a) == if macro[a].Some? then macro[a]
              else MacroIn(RulesDown(rules[..i], base) + below, a)
        {
          i := i - 1;
          RulesStep(rules, base, i, below);
          MacroStep(Placed(rules[i], base), RulesDown(rules[..i], base) + below, n);
          if rules[i].isMacro && macro[rules[i].attr].None? {
            macro := macro[rules[i].attr := Some(rules[i])];
          }
        }
        RulesEnd(rules[..i], base, below, n);
      }
      MacroNil(stack[..f], n);
    }

    /** The queried macros are unset beforehand; the result counts the queried items that are macros. */
    method Preset() returns (rem: nat)
      requires Ready() && (forall a :: 0 <= a < n ==> value[a] == Unknown)
      requires forall i :: 0 <= i < |items| ==> items[i] < n
      modifies this`value
      ensures Ready() && Known(value) == QueriedMacros(macro, items)
      ensures forall a :: 0 <= a < n ==> value[a] == if a in QueriedMacros(macro, items) then Unset else Unknown
      ensures rem == |items| <==> forall i :: 0 <= i < |items| ==> macro[items[i]].Some?
    {
      rem := 0;
      var i := 0;
      while i < |items|
        invariant 0 <= i <= |items| && Ready() && 0 <= rem <= i
        invariant forall a :: 0 <= a < n ==> value[a] == if a in items[..i] && macro[a].Some? then Unset else Unknown
        invariant rem == i <==> forall k :: 0 <= k < i ==> macro[items[k]].Some?
      {
        if macro[items[i]].Some? {
          value := value[items[i] := Unset];
          rem := rem + 1;
        }
        i := i + 1;
      }
      assert items[..i] == items;
    }

    /** The end of git_check_attr: what stayed unknown is reported as unset. */
    method ReadBack() returns (values: seq<Value>)
      requires |value| == n && forall i :: 0 <= i < |items| ==> items[i] < n
      ensures |values| == |items|
      ensures forall i :: 0 <= i < |items| ==> values[i] == Reported(value[items[i]])
    {
      values := [];
      var i := 0;
      while i < |items|
        invariant 0 <= i <= |items| && |values| == i
        invariant forall k :: 0 <= k < i ==> values[k] == Reported(value[items[k]])
      {
        var v := value[items[i]];
        if v == Unknown {
          v := Unset;
        }
        values := values + [v];
        i := i + 1;
      }
    }

    /** git_attr_set_direction drops the stacks that were built for another direction. */
    method DropStack()
      modifies this`stack
      ensures stack == []
    {
      stack := [];
    }

    /**
     collect_some_attrs and git_check_attr: the stack for the directory of the path, the macros, then the
     walk.  A queried macro is unset beforehand; if only macros are queried there is no walk.
     */
    method GitCheckAttr(files: Files, path: string, matches: PathMatcher) returns (values: seq<Value>)
      requires LeftOver(files, stack) && GoodFiles(files, n) && forall i :: 0 <= i < |items| ==> items[i] < n
      modifies this`stack, this`value, this`macro
      ensures stack == StackFor(files, path, DirLen(path)) && LeftOver(files, stack)
      ensures |values| == |items|
      ensures forall i :: 0 <= i < |items| ==> values[i] == Decided(files, path, matches, items, n, items[i])
      ensures Unknown !in values
    {
      hide Order, StackFor, Below, MacroIn, Walk, GoodStates, Script, Met, First, LastSlashBefore, UnknownSet,
        QueriedMacros, Known, LeftOver;
      var dirlen, basenameOffset := FindDirectory(path);
      stack := PrepareAttrStack(files, path, dirlen, stack);
      Stays(files, stack, path, dirlen);
      value := seq(n, _ => Unknown);
      macro := seq(n, _ => None);
      GoodStack(files, path, dirlen, n);
      DetermineMacros();
      assert macro == MacrosOf(stack, n);
      var rem := Preset();
      ghost var before := value;
      ghost var script := Script(Order(stack), MatchOf(matches, path, basenameOffset));
      ScriptGood(Order(stack), MatchOf(matches, path, basenameOffset), n);
      if items == [] || rem != |items| {
        rem := n;
        UnknownsBounded(value);
        rem := Fill(stack, MatchOf(matches, path, basenameOffset), rem);
        forall a | 0 <= a < n
          ensures value[a] == if before[a] != Unknown then before[a] else First(Met(Known(before), macro, script), a)
        {
          WalkIsFirst(before, macro, script, a);
        }
      }
      values := ReadBack();
      forall i | 0 <= i < |items| ensures values[i] == Decided(files, path, matches, items, n, items[i]) {
        InQuery(macro, items, i);
      }
    }
  }

  // ---------------------------------------------------------------------------------------------
  // What a query is answered with

  /** path_matches, for a path and the offset of its base name, a pattern and the directory of its file. */
  type PathMatcher = (string, nat, string, string) -> bool

  function MatchOf(matches: PathMatcher, path: string, basenameOffset: nat): Matcher {
    (pattern, base) => matches(path, basenameOffset, pattern, base)
  }

  /** The last slash among the first n characters that something follows, or -1. */
  function LastSlashBefore(path: string, n: nat): (k: int)
    requires n <= |path|
    ensures -1 <= k < n && (k >= 0 ==> path[k] == '/' && k + 1 < |path|)
  {
    if n == 0 then -1 else if path[n - 1] == '/' && n < |path| then n - 1 else LastSlashBefore(path, n - 1)
  }

  function DirLen(path: string): (d: nat)
    ensures d <= |path| && DirPart(path, d)
  {
    var k := LastSlashBefore(path, |path|);
    if k >= 0 then k else 0
  }

  function BasenameOffset(path: string): nat {
    LastSlashBefore(path, |path|) + 1
  }

  /** The first loop of collect_some_attrs. */
  method FindDirectory(path: string) returns (dirlen: nat, basenameOffset: nat)
    ensures dirlen == DirLen(path) && basenameOffset == BasenameOffset(path)
  {
    var lastSlash := -1;
    var cp := 0;
    while cp < |path|
      invariant 0 <= cp <= |path| && lastSlash == LastSlashBefore(path, cp)
    {
      if path[cp] == '/' && cp + 1 < |path| {
        lastSlash := cp;
      }
      cp := cp + 1;
    }
    if lastSlash >= 0 {
      dirlen, basenameOffset := lastSlash, lastSlash + 1;
    } else {
      dirlen, basenameOffset := 0, 0;
    }
  }

  /** The rules name attributes that exist. */
  ghost predicate GoodFiles(files: Files, n: nat) {
    && GoodRules(files.builtin, n)
    && (files.system.Some? ==> GoodRules(files.system.value, n))
    && (files.home.Some? ==> GoodRules(files.home.value, n))
    && (files.info.Some? ==> GoodRules(files.info.value, n))
    && forall path: string, macroOk: bool :: GoodRules(files.read(path, macroOk), n)
  }

  ghost function MacrosOf(stack: seq<Frame>, n: nat): (m: Macros)
    ensures |m| == n && forall a :: 0 <= a < n ==> m[a] == MacroIn(Order(stack), a)
  {
    seq(n, a requires 0 <= a < n => MacroIn(Order(stack), a))
  }

  ghost function QueriedMacros(m: Macros, items: seq<nat>): set<nat> {
    set a: nat | a in items && a < |m| && m[a].Some?
  }

  function Reported(v: Value): Value {
    if v == Unknown then Unset else v
  }

  /** The answer for one attribute, if those in preset are unset beforehand: unset, or the first value met. */
  ghost function Given(m: Macros, preset: set<nat>, script: seq<State>, a: nat): Value
    requires GoodMacros(m, |m|) && GoodStates(script, |m|)
  {
    if a in preset then Unset else Reported(First(Met(preset, m, script), a))
  }

  /**
   The answer for one queried attribute: what it is given on the way down the stack that belongs to the path,
   the queried macros being unset beforehand.
   */
  ghost function Decided(files: Files, path: string, matches: PathMatcher, items: seq<nat>, n: nat, a: nat): Value
    requires GoodFiles(files, n) && a < n
  {
    var stack := StackFor(files, path, DirLen(path));
    var m := MacrosOf(stack, n);
    GoodStack(files, path, DirLen(path), n);
    GoodDefinitions(stack, n);
    ScriptGood(Order(stack), MatchOf(matches, path, BasenameOffset(path)), n);
    Given(m, QueriedMacros(m, items), Script(Order(stack), MatchOf(matches, path, BasenameOffset(path))), a)
  }

  lemma InQuery(m: Macros, items: seq<nat>, i: nat)
    requires i < |items| && items[i] < |m|
    ensures items[i] in QueriedMacros(m, items) <==> m[items[i]].Some?
  {
  }

  lemma UnknownsBounded(v: seq<Value>)
    ensures Unknowns(v) <= |v|
  {
    Within(UnknownSet(v), |v|);
  }

  lemma {:induction false} Within(s: set<nat>, n: nat)
    requires forall a :: a in s ==> a < n
    ensures |s| <= n
  {
    if n > 0 {
      Within(s - {n - 1}, n - 1);
    } else {
      assert s == {};
    }
  }

  lemma Stays(files: Files, stack: seq<Frame>, path: string, dirlen: nat)
    requires dirlen <= |path| && DirPart(path, dirlen) && stack == StackFor(files, path, dirlen)
    ensures LeftOver(files, stack)
  {
    assert LeftBy(files, stack, path, dirlen);
  }

  ghost predicate GoodFrames(stack: seq<Frame>, n: nat) {
    forall i :: 0 <= i < |stack| ==> GoodRules(stack[i].rules, n)
  }

  lemma GoodStack(files: Files, path: string, dirlen: nat, n: nat)
    requires GoodFiles(files, n) && dirlen <= |path|
    ensures GoodOrder(Order(StackFor(files, path, dirlen)), n)
  {
    hide GoodRules;
    var ends := Ends(path, dirlen, 0);
    assert GoodFrames(Base(files), n) && GoodFrames([Root(files)], n) && GoodFrames([Info(files)], n) by {
      EmptyRules(n);
    }
    forall i | 0 <= i < |ends| ensures GoodRules(DirFrames(files, path, ends)[i].rules, n) {
      assert DirFrames(files, path, ends)[i] == DirFrame(files, path[..ends[i]]);
    }
    GoodAppend(Base(files), [Root(files)], n);
    GoodAppend(Base(files) + [Root(files)], DirFrames(files, path, ends), n);
    GoodAppend(Below(files, path, dirlen), [Info(files)], n);
    GoodInOrder(StackFor(files, path, dirlen), n);
  }

  lemma EmptyRules(n: nat)
    ensures GoodRules([], n)
  {
  }

  lemma GoodAppend(a: seq<Frame>, b: seq<Frame>, n: nat)
    requires GoodFrames(a, n) && GoodFrames(b, n)
    ensures GoodFrames(a + b, n)
  {
    hide GoodRules;
  }

  lemma {:induction false} GoodInOrder(stack: seq<Frame>, n: nat)
    requires GoodFrames(stack, n)
    ensures GoodOrder(Order(stack), n)
  {
    if stack != [] {
      var top := stack[|stack| - 1];
      GoodInOrder(stack[..|stack| - 1], n);
      GoodDown(top.rules, BaseOf(top), n);
    }
  }

  lemma {:induction false} GoodDown(rules: seq<Rule>, base: string, n: nat)
    requires GoodRules(rules, n)
    ensures GoodOrder(RulesDown(rules, base), n)
  {
    hide GoodStates;
    if rules != [] { GoodDown(rules[..|rules| - 1], base, n); }
  }

  lemma GoodDefinitions(stack: seq<Frame>, n: nat)
    requires GoodOrder(Order(stack), n)
    ensures GoodMacros(MacrosOf(stack, n), n)
  {
    hide GoodStates;
    forall a | 0 <= a < n && MacrosOf(stack, n)[a].Some? ensures GoodStates(MacrosOf(stack, n)[a].value.states, n) {
      GoodDefinition(Order(stack), a, n);
    }
  }

  lemma {:induction false} GoodDefinition(order: seq<Placed>, a: nat, n: nat)
    requires GoodOrder(order, n) && MacroIn(order, a).Some?
    ensures GoodStates(MacroIn(order, a).value.states, n)
  {
    hide GoodStates;
    if !(order[0].rule.isMacro && order[0].rule.attr == a) { GoodDefinition(order[1..], a, n); }
  }

  lemma WalkNil(v: seq<Value>, m: Macros)
    requires GoodMacros(m, |v|)
    ensures Walk(v, m, []) == v
  {
  }

  lemma WalkStep(v: seq<Value>, m: Macros, s: State, rest: seq<State>)
    requires GoodMacros(m, |v|) && GoodStates([s] + rest, |v|) && s.attr < |v| && s.setto != Unknown
    ensures GoodStates(rest, |v|) && GoodStates(Expansion(m, s), |v|)
    ensures Walk(v, m, [s] + rest) == if v[s.attr] != Unknown then Walk(v, m, rest)
      else Walk(v[s.attr := s.setto], m, Expansion(m, s) + rest)
  {
    assert ([s] + rest)[1..] == rest && ([s] + rest)[0] == s;
    assert forall x :: x in rest ==> x in [s] + rest;
  }

  lemma RevStep(states: seq<State>, i: nat)
    requires i < |states|
    ensures Rev(states[..i + 1]) == [states[i]] + Rev(states[..i])
  {
    assert states[..i + 1][..i] == states[..i];
  }

  lemma RevNil(states: seq<State>)
    requires states == []
    ensures Rev(states) == []
  {
  }

  lemma ExpansionIs(m: Macros, s: State)
    requires s.attr < |m|
    ensures State(s.attr, s.setto) == s
  {
  }

  lemma {:induction false} ScriptGood(order: seq<Placed>, match_: Matcher, n: nat)
    requires GoodOrder(order, n)
    ensures GoodStates(Script(order, match_), n)
    decreases |order|
  {
    if order != [] { ScriptGood(order[1..], match_, n); }
  }

  lemma ScriptStep(p: Placed, rest: seq<Placed>, match_: Matcher, n: nat)
    requires GoodOrder([p] + rest, n)
    ensures Script([p] + rest, match_) ==
      if !p.rule.isMacro && match_(p.rule.pattern, p.base) then Rev(p.rule.states) + Script(rest, match_)
      else Script(rest, match_)
    ensures GoodOrder(rest, n) && GoodStates(p.rule.states, n) && GoodStates(Rev(p.rule.states), n)
    ensures GoodStates(Script(rest, match_), n)
  {
    hide GoodStates;
    assert ([p] + rest)[1..] == rest && ([p] + rest)[0] == p;
    assert forall i :: 0 <= i < |rest| ==> rest[i] == ([p] + rest)[i + 1];
    ScriptGood(rest, match_, n);
    RevGood(p.rule.states, n);
  }

  lemma RevGood(states: seq<State>, n: nat)
    requires GoodStates(states, n)
    ensures GoodStates(Rev(states), n)
  {
  }

  lemma OrderStep(frames: seq<Frame>, f: nat)
    requires f < |frames|
    ensures Order(frames[..f + 1]) == RulesDown(frames[f].rules, BaseOf(frames[f])) + Order(frames[..f])
  {
    assert frames[..f + 1][..f] == frames[..f];
  }

  lemma OrderNil(frames: seq<Frame>, match_: Matcher)
    requires frames == []
    ensures Script(Order(frames), match_) == []
  {
  }

  lemma RulesStep(rules: seq<Rule>, base: string, i: nat, below: seq<Placed>)
    requires i < |rules|
    ensures RulesDown(rules[..i + 1], base) + below == [Placed(rules[i], base)] + (RulesDown(rules[..i], base) + below)
  {
    assert rules[..i + 1][..i] == rules[..i];
  }

  lemma RulesEnd(rules: seq<Rule>, base: string, below: seq<Placed>, n: nat)
    requires GoodOrder(RulesDown(rules, base) + below, n)
    ensures GoodOrder(below, n) && (rules == [] ==> RulesDown(rules, base) + below == below)
  {
    var k := |RulesDown(rules, base)|;
    forall i | 0 <= i < |below| ensures below[i] == (RulesDown(rules, base) + below)[k + i] { }
  }

  lemma MacroStep(p: Placed, rest: seq<Placed>, n: nat)
    requires GoodOrder([p] + rest, n)
    ensures GoodOrder(rest, n) && GoodStates(p.rule.states, n) && (p.rule.isMacro ==> p.rule.attr < n)
    ensures forall a: nat :: MacroIn([p] + rest, a) == if p.rule.isMacro && p.rule.attr == a then Some(p.rule)
      else MacroIn(rest, a)
  {
    hide GoodStates;
    assert ([p] + rest)[1..] == rest && ([p] + rest)[0] == p;
    assert forall i :: 0 <= i < |rest| ==> rest[i] == ([p] + rest)[i + 1];
  }

  lemma MacroNil(frames: seq<Frame>, n: nat)
    requires frames == []
    ensures forall a: nat :: MacroIn(Order(frames), a) == None
  {
  }
}