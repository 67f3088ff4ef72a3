/**
 The stack of attribute files for a directory, kept from one query to the next
 (bootstrap_attr_stack and prepare_attr_stack, git-2.15.0/attr.c).  The top is the end of the sequence.
 */
module AttrStack {

  datatype Option<+T> = None | Some(value: T)

  /** ATTR__UNKNOWN, ATTR__UNSET, ATTR__TRUE, ATTR__FALSE, or a string. */
  datatype Value = Unknown | Unset | True | False | Text(text: string)

  /** struct attr_state; attributes are their numbers. */
  datatype State = State(attr: nat, setto: Value)

  /** struct match_attr: a macro defines the attribute attr, other rules have a pattern. */
  datatype Rule = Rule(isMacro: bool, attr: nat, pattern: string, states: seq<State>)

  /** struct attr_stack */
  datatype Frame = Frame(origin: Option<string>, rules: seq<Rule>)

  /** The attribute files, for a fixed direction; a file that cannot be read is None. */
  datatype Files = Files(builtin: seq<Rule>, system: Option<seq<Rule>>, home: Option<seq<Rule>>,
                         info: Option<seq<Rule>>, read: (string, bool) -> seq<Rule>)

  const GITATTRIBUTES_FILE := ".gitattributes"

  /** A path whose directory part ends before a slash that something follows, or is empty. */
  predicate DirPart(path: string, dirlen: nat) {
    dirlen == 0 || (dirlen + 1 < |path| && path[dirlen] == '/')
  }

  // ---------------------------------------------------------------------------------------------
  // The stack that a path calls for

  /** Where the next component of the directory part ends. */
  function Next(path: string, dirlen: nat, len: nat): (end: nat)
    requires len < dirlen <= |path|
    ensures len < end <= dirlen
  {
    SkipName(path, dirlen, if path[len] == '/' then len + 1 else len)
  }

  function SkipName(path: string, dirlen: nat, len: nat): (end: nat)
    requires len <= dirlen <= |path|
    ensures len <= end <= dirlen
    ensures len < dirlen && path[len] != '/' ==> len < end
    decreases dirlen - len
  {
    if len < dirlen && path[len] != '/' then SkipName(path, dirlen, len + 1) else len
  }

  /** Where the components of the directory part end, from len on. */
  function Ends(path: string, dirlen: nat, len: nat): (ends: seq<nat>)
    requires len <= dirlen <= |path|
    ensures forall i :: 0 <= i < |ends| ==> len < ends[i] <= dirlen
    decreases dirlen - len
  {
    if len == dirlen then [] else [Next(path, dirlen, len)] + Ends(path, dirlen, Next(path, dirlen, len))
  }

  function DirFrame(files: Files, dir: string): Frame {
    Frame(Some(dir), files.read(dir + "/" + GITATTRIBUTES_FILE, false))
  }

  /** One frame for every directory. */
  function DirFrames(files: Files, path: string, ends: seq<nat>): (r: seq<Frame>)
    requires forall i :: 0 <= i < |ends| ==> ends[i] <= |path|
    ensures |r| == |ends| && forall i :: 0 <= i < |ends| ==> r[i] == DirFrame(files, path[..ends[i]])
  {
    seq(|ends|, i requires 0 <= i < |ends| => DirFrame(files, path[..ends[i]]))
  }

  /** The frames that no path changes. */
  function Base(files: Files): seq<Frame> {
    [Frame(None, files.builtin)]
    + (if files.system.Some? then [Frame(None, files.system.value)] else [])
    + (if files.home.Some? then [Frame(None, files.home.value)] else [])
  }

  function Root(files: Files): Frame {
    Frame(Some(""), files.read(GITATTRIBUTES_FILE, true))
  }

  function Info(files: Files): Frame {
    Frame(None, if files.info.Some? then files.info.value else [])
  }

  /** The stack below the info frame. */
  function Below(files: Files, path: string, dirlen: nat): seq<Frame>
    requires dirlen <= |path|
  {
    Base(files) + [Root(files)] + DirFrames(files, path, Ends(path, dirlen, 0))
  }

  /** Built-in, system, home, root, every directory down to the path, and info on top. */
  function StackFor(files: Files, path: string, dirlen: nat): seq<Frame>
    requires dirlen <= |path|
  {
    Below(files, path, dirlen) + [Info(files)]
  }

  /** A stack as the code may find it: empty, or left by a query for some path. */
  ghost predicate LeftOver(files: Files, stack: seq<Frame>) {
    stack == [] || exists path: string, dirlen: nat :: LeftBy(files, stack, path, dirlen)
  }

  ghost predicate LeftBy(files: Files, stack: seq<Frame>, path: string, dirlen: nat) {
    dirlen <= |path| && DirPart(path, dirlen) && stack == StackFor(files, path, dirlen)
  }

  // ---------------------------------------------------------------------------------------------
  // Frames that two paths share

  /** The start of component k, or the end of all. */
  function StartOf(ends: seq<nat>, k: nat): nat
    requires k <= |ends|
  {
    if k == 0 then 0 else ends[k - 1]
  }

  /** Each end is the next one after the end before it; the last is the end of the directory part. */
  lemma {:induction false} EndsAt(path: string, dirlen: nat, len: nat, k: nat)
    requires len <= dirlen <= |path| && k <= |Ends(path, dirlen, len)|
    ensures var ends := Ends(path, dirlen, len);
      var start := if k == 0 then len else ends[k - 1];
      && (start < dirlen <==> k < |ends|) && start <= dirlen && (k < |ends| ==> ends[k] == Next(path, dirlen, start))
    decreases dirlen - len
  {
    if len < dirlen && k > 0 {
      EndsAt(path, dirlen, Next(path, dirlen, len), k - 1);
    }
  }

  /** Every component of the directory part ends before a slash. */
  lemma {:induction false} EndsAtSlash(path: string, dirlen: nat, len: nat)
    requires dirlen <= |path| && len <= dirlen && DirPart(path, dirlen) && 0 < dirlen
    ensures path[SkipName(path, dirlen, len)] == '/'
    decreases dirlen - len
  {
    if len < dirlen && path[len] != '/' { EndsAtSlash(path, dirlen, len + 1); }
  }

  /** A name that two paths share, up to a slash in both, is skipped in both. */
  lemma {:induction false} SameSkip(p: string, dirlen: nat, q: string, qlen: nat, len: nat, to: nat)
    requires len <= to <= dirlen <= |p| && to <= qlen <= |q| && p[..to] == q[..to]
    requires SkipName(p, dirlen, len) <= to && to < |q| && q[to] == '/'
    requires to < |p| && p[to] == '/'
    ensures SkipName(q, qlen, len) == SkipName(p, dirlen, len)
    decreases dirlen - len
  {
    if len < to {
      assert p[len] == p[..to][len] == q[..to][len] == q[len];
      if p[len] != '/' { SameSkip(p, dirlen, q, qlen, len + 1, to); }
    }
  }

  /** Paths that agree up to an end in the one, and go on with a slash, have the same ends so far. */
  lemma {:induction false} SharedEnds(p: string, dirlen: nat, q: string, qlen: nat, from: nat, k: nat)
    requires from <= dirlen <= |p| && qlen <= |q| && k < |Ends(p, dirlen, from)|
    requires var to := Ends(p, dirlen, from)[k];
      to <= qlen && to < |q| && to < |p| && p[..to] == q[..to] && q[to] == '/' && p[to] == '/'
    ensures from <= qlen && k < |Ends(q, qlen, from)| && Ends(q, qlen, from)[..k + 1] == Ends(p, dirlen, from)[..k + 1]
    decreases dirlen - from
  {
    hide SkipName;
    var to := Ends(p, dirlen, from)[k];
    assert p[from] == p[..to][from] == q[..to][from] == q[from];
    var end := Next(p, dirlen, from);
    if k > 0 { assert to == Ends(p, dirlen, end)[k - 1]; }
    SameSkip(p, dirlen, q, qlen, if p[from] == '/' then from + 1 else from, to);
    assert Next(q, qlen, from) == end;
    if k > 0 {
      SharedEnds(p, dirlen, q, qlen, end, k - 1);
      assert Ends(q, qlen, from)[..k + 1] == [end] + Ends(q, qlen, end)[..k];
      assert Ends(p, dirlen, from)[..k + 1] == [end] + Ends(p, dirlen, end)[..k];
    }
  }

  // ---------------------------------------------------------------------------------------------
  // The code

  /** push_stack for a frame that could be read. */
  function Push(stack: seq<Frame>, rules: Option<seq<Rule>>, origin: Option<string>): seq<Frame> {
    if rules.Some? then stack + [Frame(origin, rules.value)] else stack
  }

  /** The frame of an origin lies on the way to the path: the test of the popping loop. */
  predicate OnTheWay(origin: string, path: string, dirlen: nat) {
    && |origin| <= dirlen && |origin| <= |path| && path[..|origin|] == origin
    && (origin == "" || (|origin| < |path| && path[|origin|] == '/'))
  }

  method BootstrapAttrStack(files: Files, stack: seq<Frame>) returns (r: seq<Frame>)
    ensures r == if stack != [] then stack else StackFor(files, "", 0)
  {
    if stack != [] {
      return stack;
    }
    r := Push([], Some(files.builtin), None);
    r := Push(r, files.system, None);
    r := Push(r, files.home, None);
    r := Push(r, Some(files.read(GITATTRIBUTES_FILE, true)), Some(""));
    r := Push(r, Some(if files.info.Some? then files.info.value else []), None);
  }

  /**
   prepare_attr_stack: whatever path the stack was left by, it becomes the stack for this path, as if it
   had been built from scratch.
   */
  method PrepareAttrStack(files: Files, path: string, dirlen: nat, stack: seq<Frame>) returns (r: seq<Frame>)
    requires dirlen <= |path| && DirPart(path, dirlen) && LeftOver(files, stack)
    ensures r == StackFor(files, path, dirlen)
  {
    hide Base, Root, Info, DirFrames, Ends, Next, DirFrame, SkipName, OnTheWay;
    r := BootstrapAttrStack(files, stack);
    ghost var was, waslen := LeftByWhom(files, stack);
    var info := r[|r| - 1];
    r := r[..|r| - 1];
    ghost var k: nat;
    r, k := PopFrames(files, path, dirlen, r, was, waslen);
    Meets(files, was, waslen, path, dirlen, k);
    r := PushFrames(files, path, dirlen, r, k);
    r := Push(r, Some(info.rules), None);
    InfoRules(files);
  }

  /** The popping loop: stops at a directory on the way to the path, at the latest at the root. */
  method PopFrames(files: Files, path: string, dirlen: nat, stack: seq<Frame>, ghost was: string, ghost waslen: nat)
    returns (r: seq<Frame>, ghost k: nat)
    requires dirlen <= |path| && waslen <= |was|
    requires stack == Base(files) + [Root(files)] + DirFrames(files, was, Ends(was, waslen, 0))
    ensures k <= |Ends(was, waslen, 0)| && OnTheWay(was[..StartOf(Ends(was, waslen, 0), k)], path, dirlen)
    ensures r == Base(files) + [Root(files)] + DirFrames(files, was, Ends(was, waslen, 0)[..k])
    ensures r != [] && r[|r| - 1].origin == Some(was[..StartOf(Ends(was, waslen, 0), k)])
  {
    hide Base, Root, Info, DirFrames, Ends, Next, DirFrame, SkipName;
    r := stack;
    ghost var ends := Ends(was, waslen, 0);
    k := |ends|;
    assert ends[..k] == ends;
    TopFrame(files, was, ends, k);
    while r[|r| - 1].origin.Some? && !OnTheWay(r[|r| - 1].origin.value, path, dirlen)
      invariant 0 <= k <= |ends| && (forall i :: 0 <= i < |ends| ==> ends[i] <= |was|)
      invariant r == Base(files) + [Root(files)] + DirFrames(files, was, ends[..k])
      invariant r[|r| - 1].origin == Some(was[..StartOf(ends, k)])
      decreases |r|
    {
      r := r[..|r| - 1];
      Popped(files, was, ends, k);
      k := k - 1;
      TopFrame(files, was, ends, k);
    }
  }

  /** The pushing loop: reads one file for every further directory on the way. */
  method PushFrames(files: Files, path: string, dirlen: nat, stack: seq<Frame>,
                    ghost start: nat) returns (r: seq<Frame>)
    requires dirlen <= |path| && DirPart(path, dirlen) && start <= |Ends(path, dirlen, 0)| && stack != []
    requires stack[|stack| - 1].origin == Some(path[..StartOf(Ends(path, dirlen, 0), start)])
    requires stack == Base(files) + [Root(files)] + DirFrames(files, path, Ends(path, dirlen, 0)[..start])
    ensures r == Below(files, path, dirlen)
  {
    hide Base, Root, Info, DirFrames, Ends, Next, DirFrame, SkipName, Push;
    r := stack;
    var pathbuf := r[|r| - 1].origin.value;
    ghost var ends := Ends(path, dirlen, 0);
    ghost var k := start;
    EndsAt(path, dirlen, 0, k);
    while |pathbuf| < dirlen
      invariant 0 <= k <= |ends| && |pathbuf| == StartOf(ends, k) <= dirlen && pathbuf == path[..|pathbuf|]
      invariant forall i :: 0 <= i < |ends| ==> ends[i] <= |path|
      invariant r == Base(files) + [Root(files)] + DirFrames(files, path, ends[..k])
      decreases dirlen - |pathbuf|
    {
      EndsAt(path, dirlen, 0, k);
      var len := |pathbuf|;
      if path[len] == '/' {
        len := len + 1;
      }
      len := EndOfName(path, dirlen, len);
      NextIs(path, dirlen, |pathbuf|);
      if |pathbuf| > 0 {
        EndsBeforeSlash(path, dirlen, k);
        pathbuf := pathbuf + "/";
      }
      pathbuf := pathbuf + path[|pathbuf|..len];
      assert pathbuf == path[..len];
      r := Push(r, Some(files.read(pathbuf + "/" + GITATTRIBUTES_FILE, false)), Some(pathbuf));
      Pushed(files, path, ends, k);
      k := k + 1;
    }
    EndsAt(path, dirlen, 0, k);
    assert ends[..k] == ends;
  }

  /** The inner loop that finds the end of a component. */
  method EndOfName(path: string, dirlen: nat, start: nat) returns (len: nat)
    requires start <= dirlen <= |path|
    ensures len == SkipName(path, dirlen, start)
  {
    len := start;
    while len < dirlen && path[len] != '/'
      invariant start <= len <= dirlen && SkipName(path, dirlen, len) == SkipName(path, dirlen, start)
    {
      len := len + 1;
    }
  }

  lemma LeftByWhom(files: Files, stack: seq<Frame>) returns (path: string, dirlen: nat)
    requires LeftOver(files, stack)
    ensures dirlen <= |path| && DirPart(path, dirlen)
    ensures (if stack != [] then stack else StackFor(files, "", 0)) == StackFor(files, path, dirlen)
  {
    if stack == [] { path, dirlen := "", 0; } else { path, dirlen :| LeftBy(files, stack, path, dirlen); }
  }

  lemma InfoRules(files: Files)
    ensures Frame(None, Info(files).rules) == Info(files)
  {
  }

  lemma TopFrame(files: Files, path: string, ends: seq<nat>, k: nat)
    requires k <= |ends| && forall i :: 0 <= i < |ends| ==> ends[i] <= |path|
    ensures var r := Base(files) + [Root(files)] + DirFrames(files, path, ends[..k]);
      r[|r| - 1].origin == Some(path[..StartOf(ends, k)])
  {
  }

  lemma Popped(files: Files, path: string, ends: seq<nat>, k: nat)
    requires 0 < k <= |ends| && forall i :: 0 <= i < |ends| ==> ends[i] <= |path|
    ensures var r := Base(files) + [Root(files)] + DirFrames(files, path, ends[..k]);
      r[..|r| - 1] == Base(files) + [Root(files)] + DirFrames(files, path, ends[..k - 1])
  {
  }

  lemma Pushed(files: Files, path: string, ends: seq<nat>, k: nat)
    requires k < |ends| && forall i :: 0 <= i < |ends| ==> ends[i] <= |path|
    ensures Push(Base(files) + [Root(files)] + DirFrames(files, path, ends[..k]),
                 Some(files.read(path[..ends[k]] + "/" + GITATTRIBUTES_FILE, false)), Some(path[..ends[k]]))
      == Base(files) + [Root(files)] + DirFrames(files, path, ends[..k + 1])
  {
    assert DirFrames(files, path, ends[..k + 1])
      == DirFrames(files, path, ends[..k]) + [DirFrame(files, path[..ends[k]])];
  }

  lemma NextIs(path: string, dirlen: nat, len: nat)
    requires len < dirlen <= |path|
    ensures Next(path, dirlen, len) == SkipName(path, dirlen, if path[len] == '/' then len + 1 else len)
  {
  }

  /** A component that another one follows ends before a slash. */
  lemma EndsBeforeSlash(path: string, dirlen: nat, k: nat)
    requires dirlen <= |path| && DirPart(path, dirlen) && 0 < k <= |Ends(path, dirlen, 0)|
    ensures var end := Ends(path, dirlen, 0)[k - 1]; 0 < end < |path| && path[end] == '/'
  {
    hide Ends, SkipName;
    EndsAt(path, dirlen, 0, k - 1);
    var start := StartOf(Ends(path, dirlen, 0), k - 1);
    EndsAtSlash(path, dirlen, if path[start] == '/' then start + 1 else start);
  }

  /** The frame that the popping loop keeps ends the same directories in the old path and in the new one. */
  lemma Meets(files: Files, was: string, waslen: nat, path: string, dirlen: nat, k: nat)
    requires waslen <= |was| && DirPart(was, waslen) && dirlen <= |path| && DirPart(path, dirlen)
    requires k <= |Ends(was, waslen, 0)| && OnTheWay(was[..StartOf(Ends(was, waslen, 0), k)], path, dirlen)
    ensures var ends := Ends(path, dirlen, 0); var prior := Ends(was, waslen, 0);
      && k <= |ends| && StartOf(ends, k) == StartOf(prior, k) && path[..StartOf(ends, k)] == was[..StartOf(prior, k)]
      && DirFrames(files, path, ends[..k]) == DirFrames(files, was, prior[..k])
  {
    hide Ends, Next, DirFrame, SkipName;
    if k > 0 {
      EndsBeforeSlash(was, waslen, k);
      SharedEnds(was, waslen, path, dirlen, 0, k - 1);
      var ends, prior := Ends(path, dirlen, 0), Ends(was, waslen, 0);
      var to := prior[k - 1];
      assert ends[k - 1] == ends[..k][k - 1] == prior[..k][k - 1];
      forall i | 0 <= i < k ensures path[..ends[i]] == was[..prior[i]] {
        assert ends[i] == ends[..k][i] == prior[..k][i];
        EndsGrow(was, waslen, 0, i, k - 1);
        assert path[..ends[i]] == path[..to][..ends[i]];
      }
    }
  }

  lemma {:induction false} EndsGrow(path: string, dirlen: nat, len: nat, i: nat, j: nat)
    requires len <= dirlen <= |path| && i <= j < |Ends(path, dirlen, len)|
    ensures Ends(path, dirlen, len)[i] <= Ends(path, dirlen, len)[j]
    decreases dirlen - len
  {
    if i > 0 { EndsGrow(path, dirlen, Next(path, dirlen, len), i - 1, j - 1); }
  }
}
