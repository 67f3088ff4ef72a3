/**
 What asking for a macro does to the other answers of the same query.  collect_some_attrs unsets the queried
 macros beforehand (git-2.15.0/attr.c), so that they are not expanded where the rules turn them on.
 */
module AttrPreset {

  import opened AttrStack
  import opened AttrFill

  /** All attributes unknown, but for those that are unset beforehand. */
  ghost function PresetTo(n: nat, preset: set<nat>): (v: seq<Value>)
    ensures |v| == n && forall a :: 0 <= a < n ==> v[a] == if a in preset then Unset else Unknown
  {
    seq(n, a => if a in preset then Unset else Unknown)
  }

  ghost predicate Bounded(preset: set<nat>, n: nat) {
    forall a :: a in preset ==> a < n
  }

  /** The answer is what the walk of the code finds. */
  lemma GivenIsWalk(m: Macros, preset: set<nat>, script: seq<State>, a: nat)
    requires GoodMacros(m, |m|) && GoodStates(script, |m|) && Bounded(preset, |m|) && a < |m|
    ensures Given(m, preset, script, a) == Reported(Walk(PresetTo(|m|, preset), m, script)[a])
  {
    hide Walk, Met, GoodMacros, GoodStates;
    var v := PresetTo(|m|, preset);
    assert Known(v) == preset;
    WalkIsFirst(v, m, script, a);
  }

  // ---------------------------------------------------------------------------------------------
  // Along the definitions

  /** The definition of macro b assigns to attribute c. */
  ghost predicate Mentions(m: Macros, b: nat, c: nat) {
    b < |m| && m[b].Some? && exists s :: s in m[b].value.states && s.attr == c
  }

  ghost predicate Path(m: Macros, p: seq<nat>) {
    p != [] && forall i :: 0 <= i < |p| - 1 ==> Mentions(m, p[i], p[i + 1])
  }

  /** Attribute a can be reached from one of these along definitions. */
  ghost predicate Reaches(m: Macros, from: set<nat>, a: nat) {
    exists p :: Path(m, p) && p[0] in from && p[|p| - 1] == a
  }

  ghost predicate Closed(m: Macros, r: set<nat>) {
    forall b: nat, c: nat :: b in r && Mentions(m, b, c) ==> c in r
  }

  ghost function Reached(m: Macros, from: set<nat>): set<nat> {
    set a: nat | a < |m| && Reaches(m, from, a)
  }

  lemma ReachedClosed(m: Macros, from: set<nat>)
    requires GoodMacros(m, |m|) && Bounded(from, |m|)
    ensures Closed(m, Reached(m, from)) && from <= Reached(m, from)
  {
    forall b: nat, c: nat | b in Reached(m, from) && Mentions(m, b, c) ensures c in Reached(m, from) {
      var p :| Path(m, p) && p[0] in from && p[|p| - 1] == b;
      var more := p + [c];
      assert Path(m, more) && more[0] in from && more[|more| - 1] == c;
    }
    forall a | a in from ensures a in Reached(m, from) {
      assert Path(m, [a]) && [a][0] in from && [a][|[a]| - 1] == a;
    }
  }

  // ---------------------------------------------------------------------------------------------
  // What cannot be reached is not affected

  /** The attributes of a set unset, whatever they were. */
  ghost function Mask(v: seq<Value>, r: set<nat>): (w: seq<Value>)
    ensures |w| == |v| && forall a :: 0 <= a < |v| ==> w[a] == if a in r then Unset else v[a]
  {
    seq(|v|, a requires 0 <= a < |v| => if a in r then Unset else v[a])
  }

  /** Assignments to known attributes do nothing. */
  lemma {:induction false} SkipKnown(v: seq<Value>, m: Macros, a: seq<State>, b: seq<State>)
    requires GoodMacros(m, |v|) && GoodStates(a, |v|) && GoodStates(b, |v|)
    requires forall s :: s in a ==> v[s.attr] != Unknown
    ensures GoodStates(a + b, |v|) && Walk(v, m, a + b) == Walk(v, m, b)
    decreases |a|
  {
    if a == [] {
      assert a + b == b;
    } else {
      assert (a + b)[1..] == a[1..] + b;
      assert a[0] in a;
      SkipKnown(v, m, a[1..], b);
    }
  }

  lemma ExpansionIn(m: Macros, s: State, r: set<nat>)
    requires s.attr < |m| && s.attr in r && Closed(m, r)
    ensures forall x :: x in Expansion(m, s) ==> x.attr in r
  {
    forall x | x in Expansion(m, s) ensures x.attr in r { assert Mentions(m, s.attr, x.attr); }
  }

  /** Outside a closed set, the walk is the same if the whole set is unset beforehand. */
  lemma {:induction false} MaskWalk(v: seq<Value>, m: Macros, script: seq<State>, r: set<nat>, a: nat)
    requires GoodMacros(m, |v|) && GoodStates(script, |v|) && Closed(m, r) && a < |v| && a !in r
    ensures Walk(v, m, script)[a] == Walk(Mask(v, r), m, script)[a]
    decreases Unknowns(v), |script|
  {
    hide Closed, Unknowns;
    if script != [] {
      var s, rest := script[0], script[1..];
      if v[s.attr] != Unknown {
        MaskWalk(v, m, rest, r, a);
        assert s.attr !in r ==> Mask(v, r)[s.attr] == v[s.attr];
      } else {
        Assigned(v, s);
        var w := v[s.attr := s.setto];
        MaskWalk(w, m, Expansion(m, s) + rest, r, a);
        if s.attr in r {
          assert Mask(w, r) == Mask(v, r);
          ExpansionIn(m, s, r);
          SkipKnown(Mask(v, r), m, Expansion(m, s), rest);
        } else {
          assert Mask(w, r) == Mask(v, r)[s.attr := s.setto];
        }
      }
    }
  }

  lemma NotAffected(m: Macros, preset: set<nat>, script: seq<State>, a: nat)
    requires GoodMacros(m, |m|) && GoodStates(script, |m|) && Bounded(preset, |m|) && a < |m|
    requires !Reaches(m, preset, a)
    ensures Given(m, preset, script, a) == Given(m, {}, script, a)
  {
    hide Walk, Given, GoodMacros, GoodStates;
    var r := Reached(m, preset);
    ReachedClosed(m, preset);
    GivenIsWalk(m, preset, script, a);
    GivenIsWalk(m, {}, script, a);
    MaskWalk(PresetTo(|m|, preset), m, script, r, a);
    MaskWalk(PresetTo(|m|, {}), m, script, r, a);
    assert Mask(PresetTo(|m|, preset), r) == Mask(PresetTo(|m|, {}), r);
  }

  // ---------------------------------------------------------------------------------------------
  // What can be reached is affected by some rules

  /** Attribute p[j] is known on one side only, and on neither side any further one is. */
  ghost predicate Apart(v: seq<Value>, w: seq<Value>, p: seq<nat>, j: nat) {
    && |v| == |w| && (forall i :: 0 <= i < |p| ==> p[i] < |v|) && j < |p|
    && (v[p[j]] != Unknown <==> w[p[j]] == Unknown)
    && forall i :: j < i < |p| ==> v[p[i]] == Unknown == w[p[i]]
  }

  lemma {:induction false} Settled(v: seq<Value>, m: Macros, script: seq<State>, s: State)
    requires GoodMacros(m, |v|) && GoodStates(script, |v|)
    ensures s in script ==> Walk(v, m, script)[s.attr] != Unknown
    ensures forall a :: 0 <= a < |v| && v[a] != Unknown ==> Walk(v, m, script)[a] == v[a]
    decreases Unknowns(v), |script|
  {
    hide Unknowns;
    if script != [] {
      var t, rest := script[0], script[1..];
      if v[t.attr] != Unknown {
        Settled(v, m, rest, s);
      } else {
        Assigned(v, t);
        Settled(v[t.attr := t.setto], m, Expansion(m, t) + rest, s);
      }
    }
  }

  lemma {:induction false} RevHas(states: seq<State>, s: State)
    requires s in states
    ensures s in Rev(states)
  {
    if s != states[|states| - 1] { RevHas(states[..|states| - 1], s); }
  }

  /** Turning on a macro that is unknown makes all that its definition mentions known. */
  lemma TurnOn(w: seq<Value>, m: Macros, b: nat, c: nat)
    requires GoodMacros(m, |w|) && b < |w| && w[b] == Unknown && Mentions(m, b, c)
    ensures c < |w| && Walk(w, m, [State(b, True)])[c] != Unknown
    ensures forall a :: 0 <= a < |w| && w[a] != Unknown ==> Walk(w, m, [State(b, True)])[a] == w[a]
  {
    hide Walk, Unknowns;
    var s := State(b, True);
    var t :| t in m[b].value.states && t.attr == c;
    RevHas(m[b].value.states, t);
    assert Expansion(m, s) + [] == Expansion(m, s) && [s] + [] == [s];
    WalkStep(w, m, s, []);
    Settled(w[b := True], m, Expansion(m, s), t);
    Settled(w, m, [s], s);
  }

  /** The last attribute of the path that is known. */
  lemma LastKnown(w: seq<Value>, p: seq<nat>, k: nat) returns (j: nat)
    requires (forall i :: 0 <= i < |p| ==> p[i] < |w|) && k < |p| && w[p[k]] != Unknown
    ensures k <= j < |p| && w[p[j]] != Unknown && forall i :: j < i < |p| ==> w[p[i]] == Unknown
  {
    j := |p| - 1;
    while w[p[j]] == Unknown
      invariant k <= j < |p| && forall i :: j < i < |p| ==> w[p[i]] == Unknown
      decreases j
    {
      j := j - 1;
    }
  }

  /** From two states that are apart on a path, some assignments give its last attribute different values. */
  lemma {:induction false} Separate(v: seq<Value>, w: seq<Value>, m: Macros, p: seq<nat>, j: nat)
    returns (script: seq<State>)
    requires GoodMacros(m, |v|) && Path(m, p) && Apart(v, w, p, j)
    ensures GoodStates(script, |v|)
    ensures Reported(Walk(v, m, script)[p[|p| - 1]]) != Reported(Walk(w, m, script)[p[|p| - 1]])
    decreases |p| - j, v[p[j]] == Unknown
  {
    hide Walk, Unknowns;
    if v[p[j]] == Unknown {
      script := Separate(w, v, m, p, j);
    } else if j == |p| - 1 {
      var a := p[j];
      var s := State(a, if v[a] == True then False else True);
      script := [s];
      assert [s] + [] == [s] && Expansion(m, s) + [] == Expansion(m, s);
      Settled(v, m, script, s);
      WalkStep(w, m, s, []);
      Settled(w[a := s.setto], m, Expansion(m, s), s);
    } else {
      var s := State(p[j], True);
      assert Mentions(m, p[j], p[j + 1]);
      SkipKnown(v, m, [s], []);
      WalkNil(v, m);
      assert [s] + [] == [s];
      TurnOn(w, m, p[j], p[j + 1]);
      var w' := Walk(w, m, [s]);
      var k := LastKnown(w', p, j + 1);
      var rest := Separate(v, w', m, p, k);
      script := [s] + rest;
      WalkAppend(v, m, [s], rest);
      WalkAppend(w, m, [s], rest);
    }
  }

  /** The part of a path from the last of its attributes that are in a set. */
  lemma {:induction false} LeaveSet(m: Macros, p: seq<nat>, q: set<nat>) returns (r: seq<nat>)
    requires Path(m, p) && p[0] in q && p[|p| - 1] !in q
    ensures Path(m, r) && r[0] in q && r[|r| - 1] == p[|p| - 1] && forall i :: 0 < i < |r| ==> r[i] !in q
    decreases |p|
  {
    if i :| 0 < i < |p| && p[i] in q {
      var tail := p[i..];
      forall k | 0 <= k < |tail| - 1 ensures Mentions(m, tail[k], tail[k + 1]) {
        assert tail[k] == p[i + k] && tail[k + 1] == p[i + k + 1];
      }
      r := LeaveSet(m, tail, q);
    } else {
      r := p;
    }
  }

  lemma {:induction false} PathBounded(m: Macros, p: seq<nat>)
    requires GoodMacros(m, |m|) && Path(m, p) && p[0] < |m|
    ensures forall i :: 0 <= i < |p| ==> p[i] < |m|
  {
    forall i | 0 <= i < |p| ensures p[i] < |m| {
      if i > 0 {
        assert Mentions(m, p[i - 1], p[i]);
        var s :| s in m[p[i - 1]].value.states && s.attr == p[i];
      }
    }
  }

  lemma Affected(m: Macros, preset: set<nat>, a: nat) returns (script: seq<State>)
    requires GoodMacros(m, |m|) && Bounded(preset, |m|) && a < |m| && a !in preset && Reaches(m, preset, a)
    ensures GoodStates(script, |m|) && Given(m, preset, script, a) != Given(m, {}, script, a)
  {
    hide Walk, Given;
    var p :| Path(m, p) && p[0] in preset && p[|p| - 1] == a;
    var r := LeaveSet(m, p, preset);
    PathBounded(m, r);
    script := Separate(PresetTo(|m|, preset), PresetTo(|m|, {}), m, r, 0);
    GivenIsWalk(m, preset, script, a);
    GivenIsWalk(m, {}, script, a);
  }

  /**
   The answer for an attribute is the same for all rules, whether some others are unset beforehand or not, if
   and only if it cannot be reached from any of them along definitions.
   */
  lemma PresetMatters(m: Macros, preset: set<nat>, a: nat)
    requires GoodMacros(m, |m|) && Bounded(preset, |m|) && a < |m| && a !in preset
    ensures (forall script :: GoodStates(script, |m|) ==>
              Given(m, preset, script, a) == Given(m, {}, script, a)) <==> !Reaches(m, preset, a)
  {
    hide Given, Reaches, GoodMacros, GoodStates;
    if Reaches(m, preset, a) {
      var script := Affected(m, preset, a);
    } else {
      forall script | GoodStates(script, |m|) ensures Given(m, preset, script, a) == Given(m, {}, script, a) {
        NotAffected(m, preset, script, a);
      }
    }
  }

  /** All answers of a query are the same for all rules, with and without presetting, if and only if it has no macro. */
  lemma PresetAtAll(m: Macros, items: seq<nat>)
    requires GoodMacros(m, |m|) && forall i :: 0 <= i < |items| ==> items[i] < |m|
    ensures (forall script, i :: GoodStates(script, |m|) && 0 <= i < |items| ==>
              Given(m, QueriedMacros(m, items), script, items[i]) == Given(m, {}, script, items[i]))
      <==> forall i :: 0 <= i < |items| ==> m[items[i]].None?
  {
    if forall i :: 0 <= i < |items| ==> m[items[i]].None? {
      assert QueriedMacros(m, items) == {};
    } else {
      var i :| 0 <= i < |items| && m[items[i]].Some?;
      var s := State(items[i], True);
      assert items[i] in QueriedMacros(m, items);
      assert Met({}, m, [s])[0] == s;
      assert GoodStates([s], |m|) && Given(m, {}, [s], items[i]) == True;
    }
  }

  // ---------------------------------------------------------------------------------------------
  // The same for attribute files

  /** A table of definitions as determine_macros makes it. */
  ghost predicate Defines(m: Macros) {
    GoodMacros(m, |m|) && forall a :: 0 <= a < |m| && m[a].Some? ==> m[a].value.isMacro && m[a].value.attr == a
  }

  /** The definitions, as lines of a file. */
  ghost function Definitions(m: Macros, k: nat): seq<Rule>
    requires k <= |m|
  {
    if k == 0 then [] else Definitions(m, k - 1) + if m[k - 1].Some? then [m[k - 1].value] else []
  }

  /** Lines that ask for assignments, one a line, the first one last. */
  ghost function Lines(script: seq<State>): seq<Rule> {
    if script == [] then [] else Lines(script[1..]) + [Rule(false, 0, "*", [script[0]])]
  }

  ghost function FilesOf(m: Macros, script: seq<State>): Files {
    Files(Definitions(m, |m|), None, None, Some(Lines(script)), (path: string, macroOk: bool) => [])
  }

  lemma RulesDownAppend(rules: seq<Rule>, r: Rule, base: string)
    ensures RulesDown(rules + [r], base) == [Placed(r, base)] + RulesDown(rules, base)
  {
    assert (rules + [r])[..|rules|] == rules;
  }

  lemma LinesDown(script: seq<State>, below: seq<Placed>)
    ensures script == [] ==> RulesDown(Lines(script), "") + below == below
    ensures script != [] ==>
      var p := Placed(Rule(false, 0, "*", [script[0]]), "");
      RulesDown(Lines(script), "") + below == [p] + (RulesDown(Lines(script[1..]), "") + below)
  {
    hide RulesDown;
    if script == [] {
      assert RulesDown([], "") == [] by { NothingDown(); }
    } else {
      RulesDownAppend(Lines(script[1..]), Rule(false, 0, "*", [script[0]]), "");
    }
  }

  lemma NothingDown()
    ensures RulesDown([], "") == []
  {
  }

  lemma Further(p: Placed, rest: seq<Placed>, match_: Matcher, a: nat)
    ensures Script([p] + rest, match_) ==
      (if !p.rule.isMacro && match_(p.rule.pattern, p.base) then Rev(p.rule.states) else []) + Script(rest, match_)
    ensures MacroIn([p] + rest, a) == if p.rule.isMacro && p.rule.attr == a then Some(p.rule) else MacroIn(rest, a)
  {
    hide Rev;
    assert ([p] + rest)[0] == p && ([p] + rest)[1..] == rest;
  }

  lemma {:induction false} LinesScript(script: seq<State>, below: seq<Placed>, match_: Matcher)
    requires forall p :: p in below ==> p.rule.isMacro
    requires match_("*", "")
    ensures Script(RulesDown(Lines(script), "") + below, match_) == script
    decreases |script|
  {
    hide RulesDown, Lines, Script, Rev;
    LinesDown(script, below);
    if script == [] {
      MacrosOnly(below, match_);
    } else {
      var p := Placed(Rule(false, 0, "*", [script[0]]), "");
      Further(p, RulesDown(Lines(script[1..]), "") + below, match_, 0);
      LinesScript(script[1..], below, match_);
      OneReversed(script[0]);
      assert [script[0]] + script[1..] == script;
    }
  }

  lemma OneReversed(s: State)
    ensures Rev([s]) == [s]
  {
  }

  lemma {:induction false} MacrosOnly(order: seq<Placed>, match_: Matcher)
    requires forall p :: p in order ==> p.rule.isMacro
    ensures Script(order, match_) == []
  {
    if order != [] { MacrosOnly(order[1..], match_); }
  }

  lemma {:induction false} NoneDefined(script: seq<State>, below: seq<Placed>, a: nat)
    ensures MacroIn(RulesDown(Lines(script), "") + below, a) == MacroIn(below, a)
    decreases |script|
  {
    hide RulesDown, Lines, MacroIn;
    LinesDown(script, below);
    if script != [] {
      var p := Placed(Rule(false, 0, "*", [script[0]]), "");
      Further(p, RulesDown(Lines(script[1..]), "") + below, (pattern: string, base: string) => true, a);
      NoneDefined(script[1..], below, a);
    }
  }

  lemma {:induction false} DefinitionsDown(m: Macros, k: nat, a: nat)
    requires Defines(m) && k <= |m|
    ensures MacroIn(RulesDown(Definitions(m, k), ""), a) == if a < k then m[a] else None
  {
    hide RulesDown, GoodMacros, MacroIn, Definitions;
    DefinitionStep(m, k);
    if k > 0 {
      DefinitionsDown(m, k - 1, a);
      if m[k - 1].Some? {
        Further(Placed(m[k - 1].value, ""), RulesDown(Definitions(m, k - 1), ""),
                (pattern: string, base: string) => true, a);
      }
    } else {
      NothingIn(a);
    }
  }

  lemma DefinitionStep(m: Macros, k: nat)
    requires k <= |m|
    ensures k == 0 ==> RulesDown(Definitions(m, k), "") == []
    ensures k > 0 && m[k - 1].None? ==> Definitions(m, k) == Definitions(m, k - 1)
    ensures k > 0 && m[k - 1].Some? ==>
      RulesDown(Definitions(m, k), "") == [Placed(m[k - 1].value, "")] + RulesDown(Definitions(m, k - 1), "")
  {
    hide RulesDown;
    NothingDown();
    if k > 0 && m[k - 1].Some? { RulesDownAppend(Definitions(m, k - 1), m[k - 1].value, ""); }
  }

  lemma {:induction false} DefinitionsMacros(m: Macros, k: nat)
    requires Defines(m) && k <= |m|
    ensures forall p :: p in RulesDown(Definitions(m, k), "") ==> p.rule.isMacro
  {
    hide RulesDown, GoodMacros, Definitions;
    DefinitionStep(m, k);
    if k > 0 { DefinitionsMacros(m, k - 1); }
  }

  lemma NothingIn(a: nat)
    ensures MacroIn([], a) == None
  {
  }

  lemma {:induction false} DefinitionsGood(m: Macros, k: nat)
    requires Defines(m) && k <= |m|
    ensures GoodRules(Definitions(m, k), |m|)
  {
    hide GoodStates;
    if k > 0 {
      DefinitionsGood(m, k - 1);
      if m[k - 1].None? { assert Definitions(m, k) == Definitions(m, k - 1); }
    }
  }

  lemma {:induction false} LinesGood(script: seq<State>, n: nat)
    requires GoodStates(script, n)
    ensures GoodRules(Lines(script), n)
  {
    if script != [] { LinesGood(script[1..], n); }
  }

  const ANYWHERE := "f"

  /** Any definitions and any assignments are those of some attribute files, for a path in the top directory. */
  lemma Realized(m: Macros, script: seq<State>)
    requires Defines(m) && GoodStates(script, |m|)
    ensures var files, match_ := FilesOf(m, script), (pattern: string, base: string) => true;
      var stack := StackFor(files, ANYWHERE, DirLen(ANYWHERE));
      && GoodFiles(files, |m|) && MacrosOf(stack, |m|) == m && Script(Order(stack), match_) == script
  {
    var files, match_ := FilesOf(m, script), (pattern: string, base: string) => true;
    assert DirLen(ANYWHERE) == 0 by { TopDirectory(); }
    var stack := StackFor(files, ANYWHERE, 0);
    var defs := RulesDown(Definitions(m, |m|), "");
    var order := RulesDown(Lines(script), "") + defs;
    assert Order(stack) == order by { OrderOf(m, script); }
    DefinitionsMacros(m, |m|);
    DefinitionsGood(m, |m|);
    LinesScript(script, defs, match_);
    LinesGood(script, |m|);
    forall a: nat | a < |m| ensures MacrosOf(stack, |m|)[a] == m[a] {
      NoneDefined(script, defs, a);
      DefinitionsDown(m, |m|, a);
    }
  }

  lemma TopDirectory()
    ensures DirLen(ANYWHERE) == 0
  {
    assert LastSlashBefore(ANYWHERE, 0) == -1;
    assert LastSlashBefore(ANYWHERE, 1) == -1;
  }

  lemma OrderOf(m: Macros, script: seq<State>)
    ensures Order(StackFor(FilesOf(m, script), ANYWHERE, 0))
      == RulesDown(Lines(script), "") + RulesDown(Definitions(m, |m|), "")
  {
    hide Lines, Definitions, RulesDown, Order;
    var files := FilesOf(m, script);
    var base, root, info := Frame(None, files.builtin), Root(files), Info(files);
    assert Ends(ANYWHERE, 0, 0) == [];
    assert StackFor(files, ANYWHERE, 0) == [base, root, info];
    TopFirst([], base);
    TopFirst([base], root);
    TopFirst([base, root], info);
    NothingDown();
    assert [] + [base] == [base] && [base] + [root] == [base, root] && [base, root] + [info] == [base, root, info];
    assert RulesDown(Definitions(m, |m|), "") + [] == RulesDown(Definitions(m, |m|), "");
  }

  lemma TopFirst(below: seq<Frame>, top: Frame)
    ensures Order(below + [top]) == RulesDown(top.rules, BaseOf(top)) + Order(below) && Order([]) == []
  {
    assert (below + [top])[..|below|] == below;
  }

  /**
   Among all attribute files with the same definitions, what else is asked for makes no difference to the
   answer for an attribute that is no macro if and only if it cannot be reached from any macro of the query.
   */
  lemma QueryMatters(m: Macros, items: seq<nat>, a: nat)
    requires Defines(m) && a in items && a < |m| && m[a].None?
    ensures (forall files, path, matches :: GoodFiles(files, |m|) && DefinedBy(files, path, m) ==>
              Decided(files, path, matches, items, |m|, a) == Decided(files, path, matches, [a], |m|, a))
      <==> !Reaches(m, QueriedMacros(m, items), a)
  {
    hide GoodFiles, Given, Reaches, Decided, Script, Order;
    var q := QueriedMacros(m, items);
    assert QueriedMacros(m, [a]) == {};
    if Reaches(m, q, a) {
      var script := Affected(m, q, a);
      Realized(m, script);
      var files, matches := FilesOf(m, script), (path: string, offset: nat, pattern: string, base: string) => true;
      DecidedIs(files, ANYWHERE, matches, items, m, a);
      DecidedIs(files, ANYWHERE, matches, [a], m, a);
      SameMatches(files, m, script);
    } else {
      forall files, path, matches | GoodFiles(files, |m|) && DefinedBy(files, path, m)
        ensures Decided(files, path, matches, items, |m|, a) == Decided(files, path, matches, [a], |m|, a)
      {
        DecidedIs(files, path, matches, items, m, a);
        DecidedIs(files, path, matches, [a], m, a);
        NotAffected(m, q, ScriptOf(files, path, matches), a);
      }
    }
  }

  ghost predicate DefinedBy(files: Files, path: string, m: Macros) {
    MacrosOf(StackFor(files, path, DirLen(path)), |m|) == m
  }

  ghost function ScriptOf(files: Files, path: string, matches: PathMatcher): seq<State> {
    Script(Order(StackFor(files, path, DirLen(path))), MatchOf(matches, path, BasenameOffset(path)))
  }

  lemma DecidedIs(files: Files, path: string, matches: PathMatcher, items: seq<nat>, m: Macros, a: nat)
    requires GoodFiles(files, |m|) && DefinedBy(files, path, m) && a < |m|
    ensures GoodMacros(m, |m|) && GoodStates(ScriptOf(files, path, matches), |m|)
    ensures Decided(files, path, matches, items, |m|, a)
      == Given(m, QueriedMacros(m, items), ScriptOf(files, path, matches), a)
  {
    hide GoodFiles, StackFor, Script, Order, GoodMacros, GoodStates, Given;
    var stack := StackFor(files, path, DirLen(path));
    GoodStack(files, path, DirLen(path), |m|);
    GoodDefinitions(stack, |m|);
    ScriptGood(Order(stack), MatchOf(matches, path, BasenameOffset(path)), |m|);
  }

  lemma SameMatches(files: Files, m: Macros, script: seq<State>)
    requires Defines(m) && GoodStates(script, |m|) && files == FilesOf(m, script)
    ensures ScriptOf(files, ANYWHERE, (path: string, offset: nat, pattern: string, base: string) => true) == script
  {
    var matches: PathMatcher := (path: string, offset: nat, pattern: string, base: string) => true;
    var match_ := MatchOf(matches, ANYWHERE, BasenameOffset(ANYWHERE));
    var defs := RulesDown(Definitions(m, |m|), "");
    TopDirectory();
    OrderOf(m, script);
    DefinitionsMacros(m, |m|);
    LinesScript(script, defs, match_);
  }

  /**
   A query that the code answers differently: one macro, attribute 0, stands for attribute 1 being false, and a
   line for all files turns it on.  Asked for alone, attribute 1 is false; asked for with the macro, it is unset.
   */
  lemma PresetHidesMacro()
    ensures var m: Macros := [Some(Rule(true, 0, "", [State(1, False)])), None];
      var files := FilesOf(m, [State(0, True)]);
      var matches: PathMatcher := (path: string, offset: nat, pattern: string, base: string) => true;
      && GoodFiles(files, 2) && DefinedBy(files, ANYWHERE, m) && Reaches(m, {0}, 1)
      && Decided(files, ANYWHERE, matches, [1], 2, 1) == False
      && Decided(files, ANYWHERE, matches, [0, 1], 2, 1) == Unset
  {
    hide Order, StackFor, Script, DirLen;
    var m: Macros := [Some(Rule(true, 0, "", [State(1, False)])), None];
    var s := State(0, True);
    var files := FilesOf(m, [s]);
    var matches: PathMatcher := (path: string, offset: nat, pattern: string, base: string) => true;
    assert Defines(m) && GoodStates([s], 2);
    Realized(m, [s]);
    SameMatches(files, m, [s]);
    DecidedIs(files, ANYWHERE, matches, [1], m, 1);
    DecidedIs(files, ANYWHERE, matches, [0, 1], m, 1);
    HiddenFalse(m, s);
    assert State(1, False) in m[0].value.states && Mentions(m, 0, 1) && Path(m, [0, 1]);
    assert [0, 1][0] in {0} && [0, 1][|[0, 1]| - 1] == 1;
  }

  lemma HiddenFalse(m: Macros, s: State)
    requires m == [Some(Rule(true, 0, "", [State(1, False)])), None] && s == State(0, True)
    ensures GoodMacros(m, |m|) && GoodStates([s], |m|)
    ensures Given(m, QueriedMacros(m, [1]), [s], 1) == False
    ensures Given(m, QueriedMacros(m, [0, 1]), [s], 1) == Unset
  {
    hide Walk, Given, Met;
    var t := State(1, False);
    assert QueriedMacros(m, [1]) == {} && QueriedMacros(m, [0, 1]) == {0};
    GivenIsWalk(m, {}, [s], 1);
    GivenIsWalk(m, {0}, [s], 1);
    OneReversed(t);
    assert [s] + [] == [s] && [t] + [] == [t];
    var none, hidden: seq<Value> := [Unknown, Unknown], [Unset, Unknown];
    assert PresetTo(2, {}) == none && PresetTo(2, {0}) == hidden;
    WalkStep(none, m, s, []);
    assert Expansion(m, s) + [] == [t] && Expansion(m, t) + [] == [];
    WalkStep([True, Unknown], m, t, []);
    WalkNil([True, False], m);
    assert none[0 := True] == [True, Unknown] && [True, Unknown][1 := False] == [True, False];
    WalkStep(hidden, m, s, []);
    WalkNil(hidden, m);
  }
}
