/**
 Applying the hunks of a patch, forwards and in reverse (apply_one_fragment, apply_fragments and
 reverse_patches, git-2.15.0/apply.c).
 */
module ApplyPatch {

  import opened ApplyImage
  import opened ApplyMatch
  import opened ApplyHunk

  /** The fields of apply_state that matter here. */
  datatype Options = Options(unidiffZero: bool, allowOverlap: bool, pContext: nat, inReverse: bool, withReject: bool)

  /** An image at one moment: its lines and their table. */
  datatype Shot = Shot(lines: seq<string>, line: seq<Line>)

  ghost function Now(img: Image): Shot
    reads img
  {
    Shot(img.lines, img.line)
  }

  /** What reverse_patches does to a fragment. */
  function Swapped(f: Fragment): Fragment {
    f.(oldpos := f.newpos, newpos := f.oldpos, oldlines := f.newlines, newlines := f.oldlines)
  }

  /** A fragment as the parser made it, or as reverse_patches left it. */
  ghost predicate Usable(f: Fragment, inReverse: bool) {
    Parsed(if inReverse then Swapped(f) else f)
  }

  /** match_beginning */
  predicate AtStart(o: Options, f: Fragment) {
    f.oldpos == 0 || (f.oldpos == 1 && !o.unidiffZero)
  }

  /** match_end */
  predicate AtEnd(o: Options, f: Fragment) {
    !o.unidiffZero && f.trailing == 0
  }

  ghost function Wanted(o: Options, f: Fragment): seq<string> {
    Texts(PreItems(f, o.inReverse))
  }

  /** The hunk's place, as first asked for, before any context is given up. */
  ghost predicate Hit(o: Options, f: Fragment, s: Shot, pos: int)
    requires |s.line| == |s.lines|
  {
    Matches(s.lines, s.line, Wanted(o, f), pos, AtStart(o, f), AtEnd(o, f))
  }

  function Hint(f: Fragment): int {
    if f.newpos != 0 then f.newpos - 1 else 0
  }

  function Min(a: int, b: int): int { if a < b then a else b }

  function Max(a: int, b: int): int { if a < b then b else a }

  /** The most context that the hunk has at an end. */
  function Most(f: Fragment): nat { Max(f.leading, f.trailing) }

  /** With at most m lines of context at either end the hunk fits at line j, wherever that is in the file. */
  ghost predicate FitsWith(o: Options, f: Fragment, s: Shot, m: nat, j: int)
    requires |s.line| == |s.lines|
  {
    var pre, a, b := PreItems(f, o.inReverse), f.leading - Min(f.leading, m), f.trailing - Min(f.trailing, m);
    a + b <= |pre| && Matches(s.lines, s.line, Texts(Kept(pre, a, b)), j, false, false)
  }

  /** With at most m lines of context the hunk fits nowhere. */
  ghost predicate FitsNowhere(o: Options, f: Fragment, s: Shot, m: nat)
    requires |s.line| == |s.lines|
  {
    forall j :: !FitsWith(o, f, s, m, j)
  }

  /** The line where the search starts with m lines of context: the header's, less what was taken off the front. */
  ghost function StartWith(o: Options, f: Fragment, s: Shot, m: nat): int {
    var a, b := f.leading - Min(f.leading, m), f.trailing - Min(f.trailing, m);
    StartLine(|s.lines|, Max(|PreItems(f, o.inReverse)| - a - b, 0), Hint(f) - a, false, false)
  }

  /**
   One hunk, from s to t.  On failure nothing changed and the hunk fits nowhere.  On success a match, less
   a leading and b trailing context lines that both images share, was replaced.  Of the context, at most m
   lines are kept at either end, that is all where there are fewer.  None is given up if the whole hunk fits at
   the ends it must reach; and then the place is the nearest one.  Else, if the options allow less context, it
   is the nearest place with the most context with which the hunk fits at all, and no less than they demand.
   */
  ghost predicate OneHunk(o: Options, f: Fragment, s: Shot, t: Shot, pos: int, leading: nat, trailing: nat)
    requires |s.line| == |s.lines|
  {
    var m, c := Max(leading, trailing), o.pContext;
    && leading == Min(f.leading, m) && trailing == Min(f.trailing, m) && Min(Most(f), c) <= m
    && (pos < 0 ==> t == s && forall j :: !Hit(o, f, s, j))
    && (pos >= 0 ==> Replaced(o, f, s, t, pos, f.leading - leading, f.trailing - trailing))
    && ((exists j :: Hit(o, f, s, j)) ==>
      pos >= 0 && leading == f.leading && trailing == f.trailing && Hit(o, f, s, pos))
    && (forall j :: Hit(o, f, s, j) ==>
      Sooner(StartLine(|s.lines|, |Wanted(o, f)|, Hint(f), AtStart(o, f), AtEnd(o, f)), pos, j))
    && (pos >= 0 && (forall j :: !Hit(o, f, s, j)) ==>
      && c < Most(f) && FitsWith(o, f, s, m, pos)
      && (forall n: nat :: m < n <= Most(f) ==> FitsNowhere(o, f, s, n))
      && forall j :: FitsWith(o, f, s, m, j) ==> Sooner(StartWith(o, f, s, m), pos, j))
    && (pos < 0 && c < Most(f) ==> forall n: nat :: c <= n <= Most(f) ==> FitsNowhere(o, f, s, n))
  }

  /** The whole hunk is hit where it fits at the ends that it must reach. */
  lemma HitIs(o: Options, f: Fragment, s: Shot, j: int)
    requires |s.line| == |s.lines|
    ensures Hit(o, f, s, j) <==>
      && FitsWith(o, f, s, Most(f), j)
      && (f.oldpos == 0 ==> j == 0)
      && (f.oldpos == 1 && !o.unidiffZero ==> j == 0)
      && (f.trailing == 0 && !o.unidiffZero ==>
            j + |Wanted(o, f)| == |s.lines| && Flat(Wanted(o, f)) == Flat(s.lines[j..]))
  {
    hide Hash24, Flat;
    var pre := PreItems(f, o.inReverse);
    assert Kept(pre, 0, 0) == pre;
  }

  /** A hunk that fits where its header says is put there. */
  lemma HeaderPlace(o: Options, f: Fragment, s: Shot, t: Shot, pos: int, leading: nat, trailing: nat)
    requires |s.line| == |s.lines| && OneHunk(o, f, s, t, pos, leading, trailing)
    requires 0 < f.newpos && Hit(o, f, s, f.newpos - 1)
    ensures pos == f.newpos - 1 && leading == f.leading && trailing == f.trailing
  {
    hide Replaced, Hash24, FitsWith, Flat;
  }

  /** The first a and the last b lines of the two images are the same context lines. */
  ghost predicate Shared(pre: seq<Item>, post: seq<Item>, a: nat, b: nat) {
    && a + b <= |pre| && a + b <= |post|
    && AllCommon(pre[..a]) && pre[..a] == post[..a]
    && AllCommon(pre[|pre| - b..]) && pre[|pre| - b..] == post[|post| - b..]
  }

  /** Without the first a and the last b. */
  ghost function Kept(items: seq<Item>, a: nat, b: nat): seq<Item>
    requires a + b <= |items|
  {
    items[a..|items| - b]
  }

  ghost predicate Replaced(o: Options, f: Fragment, s: Shot, t: Shot, pos: int, a: nat, b: nat)
    requires |s.line| == |s.lines|
  {
    var pre, post := PreItems(f, o.inReverse), PostItems(f, o.inReverse);
    && Shared(pre, post, a, b)
    && Matches(s.lines, s.line, Texts(Kept(pre, a, b)), pos, false, false)
    && t.lines == s.lines[..pos] + Texts(Kept(post, a, b)) + s.lines[pos + |pre| - a - b..]
    && t.line == s.line[..pos] + Mark(o, Rows(Kept(post, a, b))) + s.line[pos + |pre| - a - b..]
  }

  ghost function Mark(o: Options, line: seq<Line>): seq<Line> {
    if o.allowOverlap then line else MarkPatched(line)
  }

  /** Unless overlapping is allowed, no later hunk matches a line k that a hunk has put in. */
  lemma NoOverlap(o: Options, f: Fragment, s: Shot, t: Shot, pos: int, a: nat, b: nat, want: seq<string>, j: int,
                  atStart: bool, atEnd: bool, k: int)
    requires |s.line| == |s.lines| && |t.line| == |t.lines| && Replaced(o, f, s, t, pos, a, b) && !o.allowOverlap
    requires Matches(t.lines, t.line, want, j, atStart, atEnd)
    requires pos <= k < pos + |PostItems(f, o.inReverse)| - a - b
    ensures k < j || j + |want| <= k
  {
    hide Texts, PreItems, PostItems, Hash24, Shared;
    SharedSize(PreItems(f, o.inReverse), PostItems(f, o.inReverse), a, b);
    var pre, rows := PreItems(f, o.inReverse), MarkPatched(Rows(Kept(PostItems(f, o.inReverse), a, b)));
    assert t.line == s.line[..pos] + rows + s.line[pos + |pre| - a - b..] && |s.line[..pos]| == pos;
    assert t.line[k] == rows[k - pos];
  }

  lemma ShareAllows(pre: seq<Item>, post: seq<Item>, l: nat, t: nat, a: nat, b: nat)
    requires Share(pre, post, l, t) && l + t <= |pre| && l + t <= |post| && a <= l && b <= t
    ensures Shared(pre, post, a, b)
  {
    assert pre[..a] == pre[..l][..a] == post[..a];
    var pt, qt := pre[|pre| - t..], post[|post| - t..];
    assert pre[|pre| - b..] == pt[t - b..];
    assert post[|post| - b..] == qt[t - b..];
    forall k | 0 <= k < a ensures pre[..a][k].common { assert pre[..l][k].common; }
    var last := pt[t - b..];
    forall k | 0 <= k < b ensures last[k].common { assert last[k] == pt[t - b + k]; }
  }

  lemma NothingShared(pre: seq<Item>, post: seq<Item>)
    ensures Shared(pre, post, 0, 0) && Kept(pre, 0, 0) == pre && Kept(post, 0, 0) == post
  {
  }

  /** A fragment, forwards or reversed, and the images that apply_one_fragment makes of it. */
  lemma UsableShape(f: Fragment, inReverse: bool)
    requires Usable(f, inReverse)
    ensures var pre, post := PreItems(f, inReverse), PostItems(f, inReverse);
      && |pre| + CutLines(f) == f.oldlines && |post| + CutLines(f) == f.newlines
      && (CutLines(f) == 0 ==> Share(pre, post, f.leading, f.trailing))
      && (CutLines(f) == 0 ==> f.leading + f.trailing <= |pre| && f.leading + f.trailing <= |post|)
    ensures forall i :: 0 <= i < |SplitLines(f.patch)| ==> Known(SplitLines(f.patch)[i])
  {
    var g := if inReverse then Swapped(f) else f;
    HunkShape(g);
    if inReverse {
      ReverseSwaps(g);
      if CutLines(f) == 0 { ShareFlips(PreItems(g, false), PostItems(g, false), f.leading, f.trailing); }
    }
  }

  lemma ShareFlips(pre: seq<Item>, post: seq<Item>, l: nat, t: nat)
    requires Share(pre, post, l, t)
    ensures Share(post, pre, l, t)
  {
  }

  /** Demands on the ends only rule out matches. */
  lemma Unanchored(s: Shot, pre: seq<string>, pos: int, atStart: bool, atEnd: bool)
    requires |s.line| == |s.lines| && Matches(s.lines, s.line, pre, pos, atStart, atEnd)
    ensures Matches(s.lines, s.line, pre, pos, false, false)
    ensures 0 <= pos && pos + |pre| <= |s.lines|
  {
  }

  method RemoveFirst(img: Image, ghost items: seq<Item>)
    requires Holds(img, items) && items != []
    modifies img
    ensures Holds(img, items[1..])
  {
    hide Hash24;
    img.RemoveFirstLine();
    assert Texts(items[1..]) == Texts(items)[1..] && Rows(items[1..]) == Rows(items)[1..];
  }

  method RemoveLast(img: Image, ghost items: seq<Item>)
    requires Holds(img, items) && items != []
    modifies img
    ensures Holds(img, items[..|items| - 1])
  {
    hide Hash24;
    img.RemoveLastLine();
    var n := |items| - 1;
    assert Texts(items[..n]) == Texts(items)[..n] && Rows(items[..n]) == Rows(items)[..n];
  }

  lemma KeptLess(items: seq<Item>, a: nat, b: nat)
    requires a + b < |items|
    ensures Kept(items, a, b) != []
    ensures Kept(items, a, b)[1..] == Kept(items, a + 1, b)
    ensures Kept(items, a, b)[..|Kept(items, a, b)| - 1] == Kept(items, a, b + 1)
  {
  }

  /**
   Where the search stands: at its first attempt, with all context; or, after the whole hunk was found nowhere,
   with m lines at either end, and with more of them it was found nowhere.
   */
  ghost predicate Searching(o: Options, f: Fragment, s: Shot, leading: nat, trailing: nat, pos: int, atStart: bool,
                            atEnd: bool)
    requires |s.line| == |s.lines|
  {
    var m := Max(leading, trailing);
    && leading == Min(f.leading, m) && trailing == Min(f.trailing, m) && pos == Hint(f) - (f.leading - leading)
    && Shared(PreItems(f, o.inReverse), PostItems(f, o.inReverse), f.leading - leading, f.trailing - trailing)
    && ((m == Most(f) && atStart == AtStart(o, f) && atEnd == AtEnd(o, f)) ||
        ((forall j :: !Hit(o, f, s, j)) && o.pContext < Most(f) && o.pContext <= m && !atStart && !atEnd
         && forall n: nat :: m < n <= Most(f) ==> FitsNowhere(o, f, s, n)))
  }

  lemma HitMatches(o: Options, f: Fragment, s: Shot, j: int, want: seq<string>)
    requires |s.line| == |s.lines| && want == Texts(PreItems(f, o.inReverse))
    ensures Hit(o, f, s, j) <==> Matches(s.lines, s.line, want, j, AtStart(o, f), AtEnd(o, f))
  {
    hide Matches;
  }

  /** Without demands on the ends, a match of what is kept is a place where the hunk fits. */
  lemma MatchFits(o: Options, f: Fragment, s: Shot, m: nat, want: seq<string>)
    requires |s.line| == |s.lines|
    requires var pre, a, b := PreItems(f, o.inReverse), f.leading - Min(f.leading, m), f.trailing - Min(f.trailing, m);
      a + b <= |pre| && want == Texts(Kept(pre, a, b))
    ensures forall j :: FitsWith(o, f, s, m, j) <==> Matches(s.lines, s.line, want, j, false, false)
  {
    hide Matches, Texts, PreItems, Kept;
  }

  /** An attempt has failed: the whole hunk is found nowhere. */
  lemma GiveUp(o: Options, f: Fragment, s: Shot, leading: nat, trailing: nat, pos: int, atStart: bool, atEnd: bool,
               want: seq<string>)
    requires |s.line| == |s.lines| && Searching(o, f, s, leading, trailing, pos, atStart, atEnd)
    requires f.leading - leading + f.trailing - trailing <= |PreItems(f, o.inReverse)|
    requires want == Texts(Kept(PreItems(f, o.inReverse), f.leading - leading, f.trailing - trailing))
    requires forall j :: !Matches(s.lines, s.line, want, j, atStart, atEnd)
    ensures forall j :: !Hit(o, f, s, j)
    ensures !atStart && !atEnd ==> FitsNowhere(o, f, s, Max(leading, trailing))
  {
    hide Matches, Texts, PreItems, PostItems, Shared, Hit, AtStart, AtEnd, Hint, Kept, FitsWith;
    NothingShared(PreItems(f, o.inReverse), PostItems(f, o.inReverse));
    MatchFits(o, f, s, Max(leading, trailing), want);
    if Max(leading, trailing) == Most(f) && atStart == AtStart(o, f) && atEnd == AtEnd(o, f) {
      assert leading == f.leading && trailing == f.trailing;
      forall j ensures !Hit(o, f, s, j) { HitMatches(o, f, s, j, want); }
    }
  }

  /** A match with demands on the ends is nearest where the search with all context starts. */
  lemma Found(o: Options, f: Fragment, s: Shot, t: Shot, leading: nat, trailing: nat, hint: int, atStart: bool,
              atEnd: bool, pos: int)
    requires |s.line| == |s.lines| && Searching(o, f, s, leading, trailing, hint, atStart, atEnd)
    requires var pre, post, a, b :=
      PreItems(f, o.inReverse), PostItems(f, o.inReverse), f.leading - leading, f.trailing - trailing;
      && a + b <= |pre| && a + b <= |post|
      && pos >= 0 && Matches(s.lines, s.line, Texts(Kept(pre, a, b)), pos, atStart, atEnd)
      && (forall j :: Matches(s.lines, s.line, Texts(Kept(pre, a, b)), j, atStart, atEnd) ==>
           Sooner(StartLine(|s.lines|, |Kept(pre, a, b)|, hint, atStart, atEnd), pos, j))
      && pos + |Kept(pre, a, b)| <= |s.lines|
      && t.lines == s.lines[..pos] + Texts(Kept(post, a, b)) + s.lines[pos + |Kept(pre, a, b)|..]
      && t.line == s.line[..pos] + Mark(o, Rows(Kept(post, a, b))) + s.line[pos + |Kept(pre, a, b)|..]
    ensures OneHunk(o, f, s, t, pos, leading, trailing)
  {
    hide Matches, Texts, Rows, PreItems, PostItems, Shared, Sooner, StartLine, Mark, Hit, FitsWith, Hint, AtStart,
      AtEnd, Replaced;
    var pre, post, a, b :=
      PreItems(f, o.inReverse), PostItems(f, o.inReverse), f.leading - leading, f.trailing - trailing;
    FoundReplaces(o, f, s, t, leading, trailing, atStart, atEnd, pos);
    MatchFits(o, f, s, Max(leading, trailing), Texts(Kept(pre, a, b)));
    if Max(leading, trailing) == Most(f) && atStart == AtStart(o, f) && atEnd == AtEnd(o, f) {
      assert Kept(pre, a, b) == pre;
      forall j ensures Hit(o, f, s, j) <==> Matches(s.lines, s.line, Texts(pre), j, atStart, atEnd) {
        HitMatches(o, f, s, j, Texts(pre));
      }
    }
  }

  lemma FoundReplaces(o: Options, f: Fragment, s: Shot, t: Shot, leading: nat, trailing: nat, atStart: bool,
                      atEnd: bool, pos: int)
    requires |s.line| == |s.lines| && leading <= f.leading && trailing <= f.trailing
    requires var pre, post, a, b :=
      PreItems(f, o.inReverse), PostItems(f, o.inReverse), f.leading - leading, f.trailing - trailing;
      && Shared(pre, post, a, b) && a + b <= |pre| && a + b <= |post|
      && pos >= 0 && Matches(s.lines, s.line, Texts(Kept(pre, a, b)), pos, atStart, atEnd)
      && pos + |Kept(pre, a, b)| <= |s.lines|
      && t.lines == s.lines[..pos] + Texts(Kept(post, a, b)) + s.lines[pos + |Kept(pre, a, b)|..]
      && t.line == s.line[..pos] + Mark(o, Rows(Kept(post, a, b))) + s.line[pos + |Kept(pre, a, b)|..]
    ensures Replaced(o, f, s, t, pos, f.leading - leading, f.trailing - trailing)
  {
    hide Matches, Texts, Rows, PreItems, PostItems, Shared, Mark;
    var pre, post, a, b :=
      PreItems(f, o.inReverse), PostItems(f, o.inReverse), f.leading - leading, f.trailing - trailing;
    Unanchored(s, Texts(Kept(pre, a, b)), pos, atStart, atEnd);
    assert |Kept(pre, a, b)| == |pre| - a - b;
  }

  lemma SharedSize(pre: seq<Item>, post: seq<Item>, a: nat, b: nat)
    requires Shared(pre, post, a, b)
    ensures a + b <= |pre| && a + b <= |post|
  {
  }

  lemma ItemsAre(f: Fragment, inReverse: bool)
    ensures PreItems(f, inReverse) == Pre(SplitLines(f.patch), |SplitLines(f.patch)|, inReverse)
    ensures PostItems(f, inReverse) == Post(SplitLines(f.patch), |SplitLines(f.patch)|, inReverse)
  {
  }

  lemma HoldsLines(img: Image, items: seq<Item>)
    requires Holds(img, items)
    ensures img.Valid() && img.lines == Texts(items) && img.line == Rows(items) && |img.lines| == |items|
  {
  }

  lemma FirstSearch(o: Options, f: Fragment, s: Shot)
    requires |s.line| == |s.lines|
    ensures Searching(o, f, s, f.leading, f.trailing, Hint(f), AtStart(o, f), AtEnd(o, f))
  {
    hide PreItems, PostItems;
    NothingShared(PreItems(f, o.inReverse), PostItems(f, o.inReverse));
  }

  /** The demands on the ends are dropped. */
  lemma SearchAnywhere(o: Options, f: Fragment, s: Shot, leading: nat, trailing: nat, pos: int, atStart: bool,
                       atEnd: bool)
    requires |s.line| == |s.lines| && Searching(o, f, s, leading, trailing, pos, atStart, atEnd)
    requires (forall j :: !Hit(o, f, s, j)) && (atStart || atEnd) && o.pContext < Max(leading, trailing)
    ensures Searching(o, f, s, leading, trailing, pos, false, false)
  {
    hide Shared, PreItems, PostItems, Hit, FitsNowhere;
  }

  /** One line of context less at the longer end. */
  lemma SearchReduced(o: Options, f: Fragment, s: Shot, leading: nat, trailing: nat, pos: int, leading': nat,
                      trailing': nat, pos': int)
    requires |s.line| == |s.lines| && Searching(o, f, s, leading, trailing, pos, false, false)
    requires (forall j :: !Hit(o, f, s, j)) && o.pContext < Max(leading, trailing)
    requires FitsNowhere(o, f, s, Max(leading, trailing))
    requires leading' == (if leading >= trailing then leading - 1 else leading)
    requires trailing' == (if trailing > leading' then trailing - 1 else trailing)
    requires pos' == pos - (leading - leading') && leading' <= f.leading && trailing' <= f.trailing
    requires Shared(PreItems(f, o.inReverse), PostItems(f, o.inReverse), f.leading - leading', f.trailing - trailing')
    ensures Searching(o, f, s, leading', trailing', pos', false, false)
  {
    hide Shared, PreItems, PostItems, Hit, FitsNowhere, Hint;
    var m := Max(leading, trailing);
    assert Max(leading', trailing') == m - 1;
    assert leading' == Min(f.leading, m - 1) && trailing' == Min(f.trailing, m - 1);
    forall n: nat | m - 1 < n <= Most(f) ensures FitsNowhere(o, f, s, n) { assert n == m || m < n; }
  }

  /** The last attempt has failed. */
  lemma NotFound(o: Options, f: Fragment, s: Shot, leading: nat, trailing: nat, pos: int, atStart: bool, atEnd: bool)
    requires |s.line| == |s.lines| && Searching(o, f, s, leading, trailing, pos, atStart, atEnd)
    requires (forall j :: !Hit(o, f, s, j)) && Max(leading, trailing) <= o.pContext
    requires !atStart && !atEnd ==> FitsNowhere(o, f, s, Max(leading, trailing))
    ensures OneHunk(o, f, s, s, -1, leading, trailing)
  {
    hide Hit, Replaced, Shared, FitsNowhere, FitsWith, Hint, PreItems, PostItems, AtStart, AtEnd;
  }

  /** Drops a line of context: the first, if there is no less of it, and then the last, if there is more. */
  method ReduceContext(o: Options, frag: Fragment, preimage: Image, postimage: Image, leading: nat, trailing: nat,
                       pos: int)
    returns (leading': nat, trailing': nat, pos': int)
    requires Usable(frag, o.inReverse) && CutLines(frag) == 0 && preimage != postimage
    requires leading <= frag.leading && trailing <= frag.trailing && 0 < Max(leading, trailing)
    requires var pre, post, a, b :=
      PreItems(frag, o.inReverse), PostItems(frag, o.inReverse), frag.leading - leading, frag.trailing - trailing;
      a + b <= |pre| && a + b <= |post| && Holds(preimage, Kept(pre, a, b)) && Holds(postimage, Kept(post, a, b))
    modifies preimage, postimage
    ensures leading' == if leading >= trailing then leading - 1 else leading
    ensures trailing' == if trailing > leading' then trailing - 1 else trailing
    ensures leading' <= leading && trailing' <= trailing && leading' + trailing' < leading + trailing
    ensures pos' == pos - (leading - leading')
    ensures var pre, post, a, b :=
      PreItems(frag, o.inReverse), PostItems(frag, o.inReverse), frag.leading - leading', frag.trailing - trailing';
      Shared(pre, post, a, b) && a + b <= |pre| && a + b <= |post| && Holds(preimage, Kept(pre, a, b))
        && Holds(postimage, Kept(post, a, b))
  {
    hide Usable, Holds, PreItems, PostItems, Shared, Share, CutLines, Kept;
    UsableShape(frag, o.inReverse);
    ghost var pre, post := PreItems(frag, o.inReverse), PostItems(frag, o.inReverse);
    leading', trailing', pos' := leading, trailing, pos;
    if leading' >= trailing' {
      KeptLess(pre, frag.leading - leading', frag.trailing - trailing');
      KeptLess(post, frag.leading - leading', frag.trailing - trailing');
      RemoveFirst(preimage, Kept(pre, frag.leading - leading', frag.trailing - trailing'));
      RemoveFirst(postimage, Kept(post, frag.leading - leading', frag.trailing - trailing'));
      pos' := pos' - 1;
      leading' := leading' - 1;
    }
    if trailing' > leading' {
      KeptLess(pre, frag.leading - leading', frag.trailing - trailing');
      KeptLess(post, frag.leading - leading', frag.trailing - trailing');
      RemoveLast(preimage, Kept(pre, frag.leading - leading', frag.trailing - trailing'));
      RemoveLast(postimage, Kept(post, frag.leading - leading', frag.trailing - trailing'));
      trailing' := trailing' - 1;
    }
    ShareAllows(pre, post, frag.leading, frag.trailing, frag.leading - leading', frag.trailing - trailing');
  }

  /** The call of update_image, and what it makes of the file. */
  method Replace(o: Options, frag: Fragment, img: Image, preimage: Image, postimage: Image, leading: nat, trailing: nat,
                 hint: int, atStart: bool, atEnd: bool, pos: nat)
    requires img.Valid() && img != preimage && img != postimage
    requires Searching(o, frag, Now(img), leading, trailing, hint, atStart, atEnd)
    requires leading <= frag.leading && trailing <= frag.trailing
    requires var pre, post, a, b :=
      PreItems(frag, o.inReverse), PostItems(frag, o.inReverse), frag.leading - leading, frag.trailing - trailing;
      a + b <= |pre| && a + b <= |post| && Holds(preimage, Kept(pre, a, b)) && Holds(postimage, Kept(post, a, b))
    requires Matches(img.lines, img.line, preimage.lines, pos, atStart, atEnd)
    requires forall j :: Matches(img.lines, img.line, preimage.lines, j, atStart, atEnd) ==>
      Sooner(StartLine(|img.lines|, |preimage.lines|, hint, atStart, atEnd), pos, j)
    modifies img
    ensures img.Valid() && OneHunk(o, frag, old(Now(img)), Now(img), pos, leading, trailing)
  {
    hide Matches, Texts, Rows, Shared, Holds, Replaced, Sooner, StartLine, PreItems, PostItems, Searching, OneHunk,
      Kept;
    ghost var s := Now(img);
    ghost var pre, post := PreItems(frag, o.inReverse), PostItems(frag, o.inReverse);
    ghost var a, b := frag.leading - leading, frag.trailing - trailing;
    HoldsLines(preimage, Kept(pre, a, b));
    HoldsLines(postimage, Kept(post, a, b));
    Unanchored(s, preimage.lines, pos, atStart, atEnd);
    img.UpdateImage(pos, preimage, postimage, o.allowOverlap);
    Found(o, frag, s, Now(img), leading, trailing, hint, atStart, atEnd, pos);
  }

  /**
   apply_one_fragment: makes the two images, looks for the first, gives up context from the longer end
   as long as the options allow it, and puts in the second.
   */
  method ApplyOneFragment(o: Options, img: Image, frag: Fragment) returns (appliedPos: int, leading: nat, trailing: nat)
    requires img.Valid() && Usable(frag, o.inReverse)
    requires CutLines(frag) == 0 || (frag.leading <= o.pContext && frag.trailing <= o.pContext)
    modifies img
    ensures img.Valid() && OneHunk(o, frag, old(Now(img)), Now(img), appliedPos, leading, trailing)
  {
    hide Matches, Texts, Rows, Share, Shared, Holds, Replaced, Usable, Sooner, StartLine, PreItems, PostItems, CutLines,
      Searching, OneHunk, Hit, Kept,
         AtStart, AtEnd, Hint, SplitLines, Known, Pre, Post, Describes, Flat, Swapped;
    leading, trailing := frag.leading, frag.trailing;
    var ok, preimage, postimage := BuildImages(frag.patch, o.inReverse);
    ghost var pre, post := PreItems(frag, o.inReverse), PostItems(frag, o.inReverse);
    ghost var s := Now(img);
    UsableShape(frag, o.inReverse);
    ItemsAre(frag, o.inReverse);
    NothingShared(pre, post);
    var matchBeginning := AtStart(o, frag);
    var matchEnd := AtEnd(o, frag);
    var pos := Hint(frag);
    SameSize(img.line, img.lines);
    FirstSearch(o, frag, s);
    while true
      invariant Searching(o, frag, s, leading, trailing, pos, matchBeginning, matchEnd)
      invariant leading <= frag.leading && trailing <= frag.trailing
      invariant Shared(pre, post, frag.leading - leading, frag.trailing - trailing)
      invariant frag.leading - leading + frag.trailing - trailing <= |pre|
      invariant frag.leading - leading + frag.trailing - trailing <= |post|
      invariant fresh(preimage) && fresh(postimage) && preimage != postimage && img.Valid() && Now(img) == s
      invariant Holds(preimage, Kept(pre, frag.leading - leading, frag.trailing - trailing))
      invariant Holds(postimage, Kept(post, frag.leading - leading, frag.trailing - trailing))
      modifies preimage, postimage
      decreases leading + trailing, if matchBeginning || matchEnd then 1 else 0
    {
      ghost var a, b := frag.leading - leading, frag.trailing - trailing;
      HoldsLines(preimage, Kept(pre, a, b));
      appliedPos := FindPos(img, preimage, pos, matchBeginning, matchEnd);
      if appliedPos >= 0 {
        break;
      }
      GiveUp(o, frag, s, leading, trailing, pos, matchBeginning, matchEnd, preimage.lines);
      if leading <= o.pContext && trailing <= o.pContext {
        break;
      }
      if matchBeginning || matchEnd {
        SearchAnywhere(o, frag, s, leading, trailing, pos, matchBeginning, matchEnd);
        matchBeginning, matchEnd := false, false;
      } else {
        ghost var l, t, at := leading, trailing, pos;
        leading, trailing, pos := ReduceContext(o, frag, preimage, postimage, leading, trailing, pos);
        SearchReduced(o, frag, s, l, t, at, leading, trailing, pos);
      }
    }
    if appliedPos >= 0 {
      Replace(o, frag, img, preimage, postimage, leading, trailing, pos, matchBeginning, matchEnd, appliedPos);
    } else {
      NotFound(o, frag, s, leading, trailing, pos, matchBeginning, matchEnd);
    }
  }
}
