/**
 A whole patch, and the law that applying it in reverse takes it back
 (apply_fragments and reverse_patches, git-2.15.0/apply.c).
 */
module ApplyReverse {

  import opened ApplyImage
  import opened ApplyMatch
  import opened ApplyHunk
  import opened ApplyPatch

  // ---------------------------------------------------------------------------------------------
  // Patches as edits of a list of lines

  /** The lines pre at line at of the old file become the lines post at line newAt of the new one. */
  datatype Edit = Edit(at: int, newAt: int, pre: seq<string>, post: seq<string>, leading: nat, trailing: nat)

  function Flip(e: Edit): Edit {
    Edit(e.newAt, e.at, e.post, e.pre, e.leading, e.trailing)
  }

  function FlipAll(es: seq<Edit>): (r: seq<Edit>)
    ensures |r| == |es|
  {
    if es == [] then [] else [Flip(es[0])] + FlipAll(es[1..])
  }

  ghost predicate AllWhole(ls: seq<string>) {
    forall k :: 0 <= k < |ls| ==> Whole(ls[k])
  }

  /**
   An edit that fits a file: its old lines are there, after what earlier edits took; its new place is its old
   one moved by the lines gained so far.  Without leading context it is at the beginning of the file, without
   trailing context at its end; only at the end may its new lines lack the newline.
   */
  ghost predicate Fits(ls: seq<string>, e: Edit, from: int, delta: int) {
    && 0 <= from <= e.at && e.at + |e.pre| <= |ls|
    && ls[e.at..e.at + |e.pre|] == e.pre
    && e.newAt == e.at + delta
    && e.leading + e.trailing <= |e.pre| && e.leading + e.trailing <= |e.post|
    && (e.leading == 0 ==> e.at == 0)
    && (e.trailing == 0 ==> e.at + |e.pre| == |ls|)
    && LineList(e.post) && (e.at + |e.pre| != |ls| ==> AllWhole(e.post))
  }

  /** A context patch for a file: ascending edits that do not overlap; every hunk has context, or is the only one. */
  ghost predicate ContextPatch(ls: seq<string>, es: seq<Edit>, from: int, delta: int) {
    es == [] ||
    (Fits(ls, es[0], from, delta)
     && (es[1..] != [] ==> es[0].leading + es[0].trailing > 0)
     && ContextPatch(ls, es[1..], es[0].at + |es[0].pre|, delta + |es[0].post| - |es[0].pre|))
  }

  /** The new file from old line from on. */
  ghost function Result(ls: seq<string>, es: seq<Edit>, from: int): seq<string>
    requires 0 <= from <= |ls|
  {
    if es == [] || !(from <= es[0].at && es[0].at + |es[0].pre| <= |ls|) then ls[from..] else
    ls[from..es[0].at] + es[0].post + Result(ls, es[1..], es[0].at + |es[0].pre|)
  }

  /** Nothing can follow an edit that reaches the end of the file. */
  lemma LastEdit(ls: seq<string>, es: seq<Edit>, from: int, delta: int)
    requires ContextPatch(ls, es, from, delta) && es != [] && es[0].at + |es[0].pre| == |ls|
    ensures es[1..] == []
  {
  }

  /** The new file is a list of lines again. */
  lemma {:induction false} ResultIsLineList(ls: seq<string>, es: seq<Edit>, from: int, delta: int)
    requires LineList(ls) && ContextPatch(ls, es, from, delta) && 0 <= from <= |ls|
    ensures LineList(Result(ls, es, from))
    decreases |es|
  {
    hide Whole, Part, LineList, AllWhole;
    if es == [] {
      LinesBetween(ls, from, |ls|);
      assert ls[from..|ls|] == ls[from..];
    } else {
      var e := es[0];
      ResultIsLineList(ls, es[1..], e.at + |e.pre|, delta + |e.post| - |e.pre|);
      if e.at + |e.pre| == |ls| { LastEdit(ls, es, from, delta); }
      ResultStep(ls, es, from, delta, []);
      LinesBetween(ls, from, e.at);
      NothingBefore(ls, e, from, delta);
      Joined(ls[from..e.at], e.post, Result(ls, es[1..], e.at + |e.pre|));
    }
  }

  lemma NothingBefore(ls: seq<string>, e: Edit, from: int, delta: int)
    requires LineList(ls) && Fits(ls, e, from, delta)
    ensures AllWhole(ls[from..e.at])
  {
    LinesBetween(ls, from, e.at);
    if e.at == |ls| { assert ls[from..e.at] == []; }
  }

  lemma Joined(before: seq<string>, post: seq<string>, rest: seq<string>)
    requires AllWhole(before) && LineList(post) && LineList(rest) && (AllWhole(post) || rest == [])
    ensures LineList(before + post + rest)
  {
    hide LineList, AllWhole;
    if rest == [] {
      WholeThenLines(before, post);
      assert before + post + rest == before + post;
    } else {
      WholeThenLines(post, rest);
      WholeThenLines(before, post + rest);
      assert before + post + rest == before + (post + rest);
    }
  }

  lemma WholeThenLines(a: seq<string>, b: seq<string>)
    requires AllWhole(a) && LineList(b)
    ensures LineList(a + b)
  {
    hide Whole, Part;
    if b == [] { assert a + b == a; }
  }

  /** The file in the middle of applying: the new beginning and the old rest. */
  lemma ResultStep(ls: seq<string>, es: seq<Edit>, from: int, delta: int, p: seq<string>)
    requires ContextPatch(ls, es, from, delta) && es != []
    ensures var e := es[0];
      && 0 <= from <= e.at && e.at + |e.pre| <= |ls|
      && Result(ls, es, from) == ls[from..e.at] + e.post + Result(ls, es[1..], e.at + |e.pre|)
      && p + Result(ls, es, from) == (p + ls[from..e.at] + e.post) + Result(ls, es[1..], e.at + |e.pre|)
      && (|p| == from + delta ==> |p + ls[from..e.at] + e.post| == (e.at + |e.pre|) + (delta + |e.post| - |e.pre|))
  {
    assert Fits(ls, es[0], from, delta);
    var e := es[0];
    var rest := Result(ls, es[1..], e.at + |e.pre|);
    assert p + (ls[from..e.at] + e.post + rest) == (p + ls[from..e.at] + e.post) + rest;
  }

  /**
   The edits turned round are a context patch for the new file, and take it back to the old one:
   p is the new file up to where the edits es begin.
   */
  lemma {:induction false} FlipRestores(ls: seq<string>, es: seq<Edit>, from: int, delta: int, p: seq<string>)
    requires LineList(ls) && ContextPatch(ls, es, from, delta) && 0 <= from <= |ls| && |p| == from + delta
    requires es != [] && from == 0 ==> delta == 0
    ensures ContextPatch(p + Result(ls, es, from), FlipAll(es), from + delta, -delta)
    ensures Result(p + Result(ls, es, from), FlipAll(es), from + delta) == ls[from..]
    decreases |es|
  {
    hide *;
    var r := p + Result(ls, es, from);
    if es == [] {
      FlipNothing(ls, from, delta, p);
    } else {
      var e := es[0];
      PatchTail(ls, es, from, delta);
      ResultStep(ls, es, from, delta, p);
      var p' := p + ls[from..e.at] + e.post;
      FlipRestores(ls, es[1..], e.at + |e.pre|, delta + |e.post| - |e.pre|, p');
      FlipFits(ls, es, from, delta, p);
      FlipStep(r, es, from + delta, -delta);
      Pieces(p, ls[from..e.at], e.post, Result(ls, es[1..], e.at + |e.pre|));
      assert r[from + delta..e.newAt] == ls[from..e.at];
      Pieces(ls[..from], ls[from..e.at], e.pre, ls[e.at + |e.pre|..]);
      Whole3(ls, from, e.at, e.at + |e.pre|);
    }
  }

  lemma FlipNothing(ls: seq<string>, from: int, delta: int, p: seq<string>)
    requires 0 <= from <= |ls| && |p| == from + delta
    ensures ContextPatch(p + Result(ls, [], from), FlipAll([]), from + delta, -delta)
    ensures Result(p + Result(ls, [], from), FlipAll([]), from + delta) == ls[from..]
  {
  }

  lemma PatchTail(ls: seq<string>, es: seq<Edit>, from: int, delta: int)
    requires ContextPatch(ls, es, from, delta) && es != []
    ensures var e := es[0];
      && Fits(ls, e, from, delta) && ls[e.at..e.at + |e.pre|] == e.pre && 0 <= from <= e.at && e.at + |e.pre| <= |ls|
      && e.newAt == e.at + delta
      && ContextPatch(ls, es[1..], e.at + |e.pre|, delta + |e.post| - |e.pre|)
    ensures es[1..] != [] ==> es[0].leading + es[0].trailing > 0 && es[0].pre != []
  {
  }

  lemma Whole3(ls: seq<string>, a: nat, b: nat, c: nat)
    requires a <= b <= c <= |ls|
    ensures ls[a..] == ls[a..b] + ls[b..c] + ls[c..]
  {
  }

  lemma Pieces(p: seq<string>, a: seq<string>, b: seq<string>, rest: seq<string>)
    ensures (p + a + b + rest)[|p|..|p| + |a|] == a
    ensures (p + a + b + rest)[|p| + |a|..|p| + |a| + |b|] == b
  {
  }

  /** Unfolding the reversed patch at its first edit. */
  lemma FlipStep(r: seq<string>, es: seq<Edit>, from: int, delta: int)
    requires es != [] && Fits(r, Flip(es[0]), from, delta)
    requires ContextPatch(r, FlipAll(es[1..]), es[0].newAt + |es[0].post|, delta + |es[0].pre| - |es[0].post|)
    requires es[1..] != [] ==> es[0].leading + es[0].trailing > 0
    ensures ContextPatch(r, FlipAll(es), from, delta)
    ensures Result(r, FlipAll(es), from)
      == r[from..es[0].newAt] + es[0].pre + Result(r, FlipAll(es[1..]), es[0].newAt + |es[0].post|)
  {
    hide Fits;
    assert FlipAll(es)[0] == Flip(es[0]) && FlipAll(es)[1..] == FlipAll(es[1..]);
    FitsInside(r, Flip(es[0]), from, delta);
  }

  lemma FitsInside(ls: seq<string>, e: Edit, from: int, delta: int)
    requires Fits(ls, e, from, delta)
    ensures 0 <= from <= e.at && e.at + |e.pre| <= |ls|
  {
  }

  /** The first edit, turned round, fits the new file. */
  lemma FlipFits(ls: seq<string>, es: seq<Edit>, from: int, delta: int, p: seq<string>)
    requires LineList(ls) && ContextPatch(ls, es, from, delta) && es != [] && 0 <= from <= |ls| && |p| == from + delta
    requires es != [] && from == 0 ==> delta == 0
    ensures Fits(p + Result(ls, es, from), Flip(es[0]), from + delta, -delta)
  {
    hide Whole, Part, LineList, AllWhole;
    var e := es[0];
    ResultStep(ls, es, from, delta, p);
    var r, p', rest := p + Result(ls, es, from), p + ls[from..e.at] + e.post, Result(ls, es[1..], e.at + |e.pre|);
    assert r == p' + rest;
    Pieces(p, ls[from..e.at], e.post, rest);
    LinesBetween(ls, e.at, e.at + |e.pre|);
    if e.at + |e.pre| == |ls| {
      LastEdit(ls, es, from, delta);
      assert rest == [];
    }
  }

  lemma LinesBetween(ls: seq<string>, a: nat, b: nat)
    requires LineList(ls) && a <= b <= |ls|
    ensures LineList(ls[a..b]) && (b != |ls| ==> AllWhole(ls[a..b]))
  {
    hide Whole, Part;
  }

  // ---------------------------------------------------------------------------------------------
  // Fragments as edits

  /** The place a header names: line numbers count from one, but an empty side names the line before it. */
  ghost function EditOf(f: Fragment, inReverse: bool): Edit {
    Edit(if f.oldlines == 0 then f.oldpos else f.oldpos - 1, if f.newlines == 0 then f.newpos else f.newpos - 1,
         Texts(PreItems(f, inReverse)), Texts(PostItems(f, inReverse)), f.leading, f.trailing)
  }

  ghost function Edits(frags: seq<Fragment>, inReverse: bool): (r: seq<Edit>)
    ensures |r| == |frags|
  {
    if frags == [] then [] else [EditOf(frags[0], inReverse)] + Edits(frags[1..], inReverse)
  }

  ghost predicate Applicable(o: Options, f: Fragment) {
    Usable(f, o.inReverse) && (CutLines(f) == 0 || (f.leading <= o.pContext && f.trailing <= o.pContext))
  }

  /** A well-formed patch with context for the lines of a file. */
  ghost predicate WellFormed(ls: seq<string>, frags: seq<Fragment>, inReverse: bool) {
    && LineList(ls)
    && (forall i :: 0 <= i < |frags| ==> Usable(frags[i], inReverse) && CutLines(frags[i]) == 0)
    && ContextPatch(ls, Edits(frags, inReverse), 0, 0)
  }

  ghost predicate FreshFrom(line: seq<Line>, k: nat) {
    forall i :: k <= i < |line| ==> !line[i].patched
  }

  /** A file on the way: its beginning is new, the rest is old and untouched. */
  ghost predicate Midway(s: Shot, ls: seq<string>, from: int, delta: int, p: seq<string>) {
    && |s.line| == |s.lines| && 0 <= from <= |ls| && |p| == from + delta
    && s.lines == p + ls[from..] && FreshFrom(s.line, |p|)
  }

  /** A hunk whose edit fits hits the place that its header names, at the first look. */
  lemma FitHits(o: Options, f: Fragment, s: Shot, ls: seq<string>, from: int, delta: int, p: seq<string>)
    requires Midway(s, ls, from, delta, p) && Fits(ls, EditOf(f, o.inReverse), from, delta)
    requires (from == 0 ==> delta == 0)
    requires |PreItems(f, o.inReverse)| == f.oldlines && |PostItems(f, o.inReverse)| == f.newlines
    ensures var e := EditOf(f, o.inReverse);
      && 0 <= e.newAt && Hit(o, f, s, e.newAt)
      && StartLine(|s.lines|, |Wanted(o, f)|, Hint(f), AtStart(o, f), AtEnd(o, f)) == e.newAt
  {
    hide Matches, Texts, PreItems, PostItems, LineList, AllWhole;
    var e := EditOf(f, o.inReverse);
    assert s.lines[e.newAt..e.newAt + |e.pre|] == ls[e.at..e.at + |e.pre|];
    assert Equals(s.lines, s.line, e.pre, e.newAt);
    assert Anchored(|s.lines|, |e.pre|, e.newAt, AtStart(o, f), AtEnd(o, f));
    EqualMatches(s.lines, s.line, e.pre, e.newAt, AtStart(o, f), AtEnd(o, f));
  }

  /** Such a hunk lands there, whole, and the file is new up to its end. */
  lemma HitLands(o: Options, f: Fragment, s: Shot, t: Shot, pos: int, leading: nat, trailing: nat,
                 ls: seq<string>, from: int, delta: int, p: seq<string>)
    requires Midway(s, ls, from, delta, p) && Fits(ls, EditOf(f, o.inReverse), from, delta)
    requires (from == 0 ==> delta == 0)
    requires |PreItems(f, o.inReverse)| == f.oldlines && |PostItems(f, o.inReverse)| == f.newlines
    requires OneHunk(o, f, s, t, pos, leading, trailing)
    ensures var e := EditOf(f, o.inReverse);
      && pos == e.newAt
      && Midway(t, ls, e.at + |e.pre|, delta + |e.post| - |e.pre|, p + ls[from..e.at] + e.post)
  {
    hide Matches, Texts, Rows, PreItems, PostItems, LineList, AllWhole, StartLine, Hit, Mark;
    var e := EditOf(f, o.inReverse);
    FitHits(o, f, s, ls, from, delta, p);
    assert pos >= 0 && leading == f.leading && trailing == f.trailing;
    assert Sooner(e.newAt, pos, e.newAt);
    NothingShared(PreItems(f, o.inReverse), PostItems(f, o.inReverse));
    assert Replaced(o, f, s, t, pos, 0, 0);
    Splice(s, t, ls, from, delta, p, e, Mark(o, Rows(PostItems(f, o.inReverse))));
    MarkSize(o, PostItems(f, o.inReverse));
  }

  lemma MarkSize(o: Options, items: seq<Item>)
    ensures |Mark(o, Rows(items))| == |items|
  {
  }

  lemma Splice(s: Shot, t: Shot, ls: seq<string>, from: int, delta: int, p: seq<string>, e: Edit, rows: seq<Line>)
    requires Midway(s, ls, from, delta, p) && Fits(ls, e, from, delta)
    requires t.lines == s.lines[..e.newAt] + e.post + s.lines[e.newAt + |e.pre|..]
    requires t.line == s.line[..e.newAt] + rows + s.line[e.newAt + |e.pre|..]
    ensures |rows| == |e.post| ==>
      Midway(t, ls, e.at + |e.pre|, delta + |e.post| - |e.pre|, p + ls[from..e.at] + e.post)
  {
    hide LineList, AllWhole;
    assert s.lines[..e.newAt] == p + ls[from..e.at];
    assert s.lines[e.newAt + |e.pre|..] == ls[e.at + |e.pre|..];
    if |rows| == |e.post| {
      var q := |p + ls[from..e.at] + e.post|;
      forall i | q <= i < |t.line| ensures !t.line[i].patched {
        assert t.line[i] == s.line[i - |e.post| + |e.pre|];
      }
    }
  }

  // ---------------------------------------------------------------------------------------------
  // apply_fragments

  ghost predicate HunkTo(o: Options, f: Fragment, s: Shot, t: Shot, pos: int) {
    |s.line| == |s.lines| && exists leading, trailing :: OneHunk(o, f, s, t, pos, leading, trailing)
  }

  /** The images after each hunk that was tried, and the places found. */
  ghost predicate Run(o: Options, frags: seq<Fragment>, shots: seq<Shot>, applied: seq<int>) {
    && |applied| <= |frags| && |shots| == |applied| + 1
    && forall i :: 0 <= i < |applied| ==> HunkTo(o, frags[i], shots[i], shots[i + 1], applied[i])
  }

  /** apply_fragments: every hunk in its turn; a hunk that fails ends it, unless failures are only recorded. */
  method ApplyFragments(o: Options, img: Image, frags: seq<Fragment>) returns (ok: bool, applied: seq<int>,
                        ghost shots: seq<Shot>)
    requires img.Valid() && forall i :: 0 <= i < |frags| ==> Applicable(o, frags[i])
    modifies img
    ensures img.Valid() && Run(o, frags, shots, applied) && shots[0] == old(Now(img)) && shots[|applied|] == Now(img)
    ensures ok ==> |applied| == |frags| && (!o.withReject ==> forall i :: 0 <= i < |applied| ==> applied[i] >= 0)
    ensures !ok ==> !o.withReject && applied != [] && applied[|applied| - 1] < 0
    ensures WellFormed(old(img.lines), frags, o.inReverse) && Fresh(old(img.line)) ==>
      ok && applied == Places(Edits(frags, o.inReverse))
    ensures WellFormed(old(img.lines), frags, o.inReverse) && Fresh(old(img.line)) ==>
      img.lines == Result(old(img.lines), Edits(frags, o.inReverse), 0)
  {
    hide OneHunk, WellFormed, Edits, Result, Fresh, Applicable, Places, LineList;
    applied, shots := [], [Now(img)];
    SameSize(img.line, img.lines);
    ok := true;
    var i := 0;
    while i < |frags|
      invariant 0 <= i == |applied| <= |frags| && img.Valid() && ok
      invariant Run(o, frags, shots, applied) && shots[0] == old(Now(img)) && shots[|applied|] == Now(img)
      invariant !o.withReject ==> forall k :: 0 <= k < |applied| ==> applied[k] >= 0
    {
      CanApply(o, frags[i]);
      var pos, leading, trailing := ApplyOneFragment(o, img, frags[i]);
      assert HunkTo(o, frags[i], shots[i], Now(img), pos);
      applied, shots := applied + [pos], shots + [Now(img)];
      i := i + 1;
      if pos < 0 && !o.withReject {
        ok := false;
        break;
      }
    }
    if WellFormed(old(img.lines), frags, o.inReverse) && Fresh(old(img.line)) {
      WholeRun(o, frags, shots, applied);
    }
  }

  lemma CanApply(o: Options, f: Fragment)
    requires Applicable(o, f)
    ensures Usable(f, o.inReverse) && (CutLines(f) == 0 || (f.leading <= o.pContext && f.trailing <= o.pContext))
  {
  }

  function Places(es: seq<Edit>): (r: seq<int>)
    ensures |r| == |es|
  {
    if es == [] then [] else [es[0].newAt] + Places(es[1..])
  }

  /** A well-formed patch runs through: every hunk lands at the place its header names. */
  lemma WholeRun(o: Options, frags: seq<Fragment>, shots: seq<Shot>, applied: seq<int>)
    requires Run(o, frags, shots, applied) && |shots[0].line| == |shots[0].lines|
    requires WellFormed(shots[0].lines, frags, o.inReverse) && Fresh(shots[0].line)
    ensures applied == Places(Edits(frags, o.inReverse))[..|applied|]
    ensures forall i :: 0 <= i < |applied| ==> applied[i] >= 0
    ensures |applied| == |frags| ==> shots[|applied|].lines == Result(shots[0].lines, Edits(frags, o.inReverse), 0)
  {
    hide Result, ContextPatch, Edits, Run, Usable, CutLines, Places, LineList;
    RunSizes(o, frags, shots, applied);
    var ls := shots[0].lines;
    assert Midway(shots[0], ls, 0, 0, []);
    assert frags[0..] == frags;
    RunOn(o, frags, shots, applied, 0, ls, 0, 0, []);
    assert applied[0..] == applied;
    assert [] + Result(ls, Edits(frags, o.inReverse), 0) == Result(ls, Edits(frags, o.inReverse), 0);
  }

  /** From hunk i on. */
  lemma {:induction false} RunOn(o: Options, frags: seq<Fragment>, shots: seq<Shot>, applied: seq<int>, i: nat,
                                 ls: seq<string>, from: int, delta: int, p: seq<string>)
    requires Run(o, frags, shots, applied) && i <= |applied| && Midway(shots[i], ls, from, delta, p)
    requires forall k :: 0 <= k < |frags| ==> Usable(frags[k], o.inReverse) && CutLines(frags[k]) == 0
    requires ContextPatch(ls, Edits(frags[i..], o.inReverse), from, delta) && (i < |frags| && from == 0 ==> delta == 0)
    ensures applied[i..] == Places(Edits(frags[i..], o.inReverse))[..|applied| - i]
    ensures forall k :: i <= k < |applied| ==> applied[k] >= 0
    ensures |applied| == |frags| ==> shots[|applied|].lines == p + Result(ls, Edits(frags[i..], o.inReverse), from)
    decreases |applied| - i
  {
    hide *;
    RunSizes(o, frags, shots, applied);
    if i == |applied| {
      if i == |frags| { assert frags[i..] == []; RunEnds(shots[i], ls, from, delta, p, o.inReverse); }
    } else {
      var f, e := frags[i], EditOf(frags[i], o.inReverse);
      var es := Edits(frags[i..], o.inReverse);
      EditsStep(frags, i, o.inReverse);
      PatchTail(ls, es, from, delta);
      UsableShape(f, o.inReverse);
      var leading, trailing := RunAt(o, frags, shots, applied, i);
      HitLands(o, f, shots[i], shots[i + 1], applied[i], leading, trailing, ls, from, delta, p);
      FitHits(o, f, shots[i], ls, from, delta, p);
      RunOn(o, frags, shots, applied, i + 1, ls, e.at + |e.pre|, delta + |e.post| - |e.pre|,
            p + ls[from..e.at] + e.post);
      ResultStep(ls, es, from, delta, p);
      PlacesStep(es);
      assert applied[i..] == [applied[i]] + applied[i + 1..];
    }
  }

  lemma RunSizes(o: Options, frags: seq<Fragment>, shots: seq<Shot>, applied: seq<int>)
    requires Run(o, frags, shots, applied)
    ensures |applied| <= |frags| && |shots| == |applied| + 1
  {
  }

  lemma RunAt(o: Options, frags: seq<Fragment>, shots: seq<Shot>, applied: seq<int>, i: nat) returns (leading: nat,
              trailing: nat)
    requires Run(o, frags, shots, applied) && i < |applied|
    ensures |shots[i].line| == |shots[i].lines|
    ensures OneHunk(o, frags[i], shots[i], shots[i + 1], applied[i], leading, trailing)
  {
    hide OneHunk;
    var t := shots[i + 1];
    assert HunkTo(o, frags[i], shots[i], t, applied[i]);
    leading, trailing :| OneHunk(o, frags[i], shots[i], t, applied[i], leading, trailing);
  }

  lemma RunEnds(s: Shot, ls: seq<string>, from: int, delta: int, p: seq<string>, inReverse: bool)
    requires Midway(s, ls, from, delta, p)
    ensures s.lines == p + Result(ls, Edits([], inReverse), from)
  {
  }

  lemma EditsStep(frags: seq<Fragment>, i: nat, inReverse: bool)
    requires i < |frags|
    ensures Edits(frags[i..], inReverse) != [] && Edits(frags[i..], inReverse)[0] == EditOf(frags[i], inReverse)
    ensures Edits(frags[i..], inReverse)[1..] == Edits(frags[i + 1..], inReverse)
  {
    assert frags[i..][1..] == frags[i + 1..];
  }

  lemma PlacesStep(es: seq<Edit>)
    requires es != []
    ensures Places(es) == [es[0].newAt] + Places(es[1..])
  {
  }

  // ---------------------------------------------------------------------------------------------
  // Reverse application

  function SwapAll(frags: seq<Fragment>): (r: seq<Fragment>)
    ensures |r| == |frags| && forall i :: 0 <= i < |frags| ==> r[i] == Swapped(frags[i])
  {
    if frags == [] then [] else [Swapped(frags[0])] + SwapAll(frags[1..])
  }

  /** reverse_patches, on the fragments of one patch. */
  method ReversePatches(frags: seq<Fragment>) returns (r: seq<Fragment>)
    ensures r == SwapAll(frags)
  {
    r := frags;
    var i := 0;
    while i < |r|
      invariant 0 <= i <= |r| == |frags|
      invariant forall k :: 0 <= k < i ==> r[k] == Swapped(frags[k])
      invariant forall k :: i <= k < |r| ==> r[k] == frags[k]
    {
      var f := r[i];
      r := r[i := f.(newpos := f.oldpos, oldpos := f.newpos, newlines := f.oldlines, oldlines := f.newlines)];
      i := i + 1;
    }
  }

  /** Swapping the header and reading the text in reverse turns the edit round. */
  lemma {:induction false} SwapFlips(frags: seq<Fragment>)
    ensures Edits(SwapAll(frags), true) == FlipAll(Edits(frags, false))
  {
    hide PreItems, PostItems;
    if frags != [] {
      SwapFlips(frags[1..]);
      SwapFlipsOne(frags[0]);
      assert SwapAll(frags)[1..] == SwapAll(frags[1..]);
      assert Edits(frags, false)[1..] == Edits(frags[1..], false);
    }
  }

  lemma SwapFlipsOne(f: Fragment)
    ensures EditOf(Swapped(f), true) == Flip(EditOf(f, false))
  {
    ReverseSwaps(f);
    assert PreItems(Swapped(f), true) == PreItems(f, true) && PostItems(Swapped(f), true) == PostItems(f, true);
  }

  /** The reversed patch is well formed for the patched file, and its result is the old file. */
  lemma ReverseWellFormed(ls: seq<string>, frags: seq<Fragment>)
    requires WellFormed(ls, frags, false)
    ensures var r := Result(ls, Edits(frags, false), 0);
      WellFormed(r, SwapAll(frags), true) && Result(r, Edits(SwapAll(frags), true), 0) == ls
  {
    hide LineList, ContextPatch, Edits, Result, Parsed, CutLines, FlipAll;
    var es := Edits(frags, false);
    ResultIsLineList(ls, es, 0, 0);
    FlipRestores(ls, es, 0, 0, []);
    assert [] + Result(ls, es, 0) == Result(ls, es, 0);
    SwapFlips(frags);
    assert ls[0..] == ls;
    forall i | 0 <= i < |frags| ensures Usable(SwapAll(frags)[i], true) && CutLines(SwapAll(frags)[i]) == 0 {
      assert Swapped(Swapped(frags[i])) == frags[i];
      SameCuts(frags[i]);
    }
  }

  lemma SameCuts(f: Fragment)
    ensures CutLines(Swapped(f)) == CutLines(f)
  {
  }

  /**
   The law of reverse application: a well-formed patch applies at the places its headers name, and the
   patch reversed, applied to the bytes that resulted, lands at the swapped places and gives the old bytes.
   */
  method ApplyAndTakeBack(o: Options, contents: string, frags: seq<Fragment>)
    returns (ok: bool, patched: string, applied: seq<int>, okBack: bool, restored: string, appliedBack: seq<int>)
    requires !o.inReverse && WellFormed(SplitLines(contents), frags, false)
    ensures ok && okBack && restored == contents
    ensures patched == Flat(Result(SplitLines(contents), Edits(frags, false), 0))
    ensures applied == Places(Edits(frags, false)) && appliedBack == OldPlaces(Edits(frags, false))
  {
    hide Result, Edits, Flat, SplitLines, LineList, Places, OldPlaces, ContextPatch, Fresh, Parsed, CutLines, Describes,
      Run;
    var ls := SplitLines(contents);
    var img := new Image();
    img.PrepareImage(contents);
    ghost var shots;
    ok, applied, shots := ApplyFragments(o, img, frags);
    patched := img.buf;
    ReverseWellFormed(ls, frags);
    var r := Result(ls, Edits(frags, false), 0);
    assert Flat(r) == patched;
    SplitIsLineList(patched);
    SplitFlat(patched);
    OneLineList(SplitLines(patched), r);
    var back := ReversePatches(frags);
    img.PrepareImage(patched);
    okBack, appliedBack, shots := ApplyFragments(o.(inReverse := true), img, back);
    restored := img.buf;
    SplitFlat(contents);
    SwapFlips(frags);
    PlacesFlip(Edits(frags, false));
  }

  lemma SplitFlat(s: string)
    ensures Flat(SplitLines(s)) == s
  {
  }

  function OldPlaces(es: seq<Edit>): (r: seq<int>)
    ensures |r| == |es|
  {
    if es == [] then [] else [es[0].at] + OldPlaces(es[1..])
  }

  lemma {:induction false} PlacesFlip(es: seq<Edit>)
    ensures Places(FlipAll(es)) == OldPlaces(es)
  {
    if es != [] {
      PlacesFlip(es[1..]);
      assert FlipAll(es)[1..] == FlipAll(es[1..]);
    }
  }
}
