/**
 The text of a hunk: reading it from a patch (parse_fragment) and making the two images that
 apply_one_fragment looks for and puts in (git-2.15.0/apply.c).
 */
module ApplyHunk {

  import opened ApplyImage

  datatype Option<+T> = None | Some(value: T)

  const U64: int := 0x1_0000_0000_0000_0000

  /** What parse_fragment_header finds in the @@ line. */
  datatype Header = Header(oldpos: nat, oldlines: nat, newpos: nat, newlines: nat)

  /** struct fragment: patch is the text, from the @@ line on. */
  datatype Fragment = Fragment(patch: string, oldpos: nat, oldlines: nat, newpos: nat, newlines: nat,
                               leading: nat, trailing: nat)

  // ---------------------------------------------------------------------------------------------
  // Counting the lines of a hunk

  ghost predicate Nonempty(raws: seq<string>) {
    forall i :: 0 <= i < |raws| ==> raws[i] != ""
  }

  predicate IsContext(r: string) { r != "" && (r[0] == ' ' || r[0] == '\n') }

  predicate IsDeleted(r: string) { r != "" && r[0] == '-' }

  predicate IsAdded(r: string) { r != "" && r[0] == '+' }

  predicate IsNote(r: string) { r != "" && r[0] == '\\' }

  /** A line that parse_fragment takes as part of a hunk. */
  predicate GoodLine(r: string) {
    && r != "" && r[|r| - 1] == '\n'
    && (IsContext(r) || IsDeleted(r) || IsAdded(r) || (IsNote(r) && |r| >= 12 && r[1] == ' '))
  }

  /** By the first character: context, a deleted or an added line, or a note of at least twelve characters. */
  lemma GoodLineIs(r: string)
    ensures GoodLine(r) <==>
      && r != "" && r[|r| - 1] == '\n'
      && (r[0] in {'\n', ' ', '-', '+'} || (|r| >= 12 && r[0] == '\\' && r[1] == ' '))
  {
  }

  ghost function OldCount(raws: seq<string>, n: nat): nat
    requires n <= |raws|
  {
    if n == 0 then 0 else OldCount(raws, n - 1) + if IsContext(raws[n - 1]) || IsDeleted(raws[n - 1]) then 1 else 0
  }

  ghost function NewCount(raws: seq<string>, n: nat): nat
    requires n <= |raws|
  {
    if n == 0 then 0 else NewCount(raws, n - 1) + if IsContext(raws[n - 1]) || IsAdded(raws[n - 1]) then 1 else 0
  }

  /** Some line among the first n is deleted or added. */
  ghost predicate Changes(raws: seq<string>, n: nat)
    requires n <= |raws|
  {
    exists i :: 0 <= i < n && (IsDeleted(raws[i]) || IsAdded(raws[i]))
  }

  /** Context lines before the first change. */
  ghost function Lead(raws: seq<string>, n: nat): nat
    requires n <= |raws|
  {
    if n == 0 then 0 else
    Lead(raws, n - 1) + if IsContext(raws[n - 1]) && !Changes(raws, n - 1) then 1 else 0
  }

  /** Context lines after the last change. */
  ghost function Trail(raws: seq<string>, n: nat): nat
    requires n <= |raws|
  {
    if n == 0 then 0 else
    if IsContext(raws[n - 1]) then Trail(raws, n - 1) + 1 else
    if IsDeleted(raws[n - 1]) || IsAdded(raws[n - 1]) then 0 else Trail(raws, n - 1)
  }

  lemma {:induction false} CountsBounded(raws: seq<string>, n: nat)
    requires n <= |raws|
    ensures OldCount(raws, n) <= n && NewCount(raws, n) <= n
  {
    if n > 0 { CountsBounded(raws, n - 1); }
  }

  lemma {:induction false} AtLeastOneByte(raws: seq<string>)
    requires Nonempty(raws)
    ensures |raws| <= |Flat(raws)|
  {
    if raws != [] { AtLeastOneByte(raws[1..]); }
  }

  /** Line 0 is the header; lines 1 to n-1 are the shortest run of good lines with the promised counts. */
  ghost predicate Accepts(raws: seq<string>, n: nat, oldlines: nat, newlines: nat) {
    && 1 <= n <= |raws|
    && (forall i :: 1 <= i < n ==> GoodLine(raws[i]))
    && OldCount(raws, n) == oldlines && NewCount(raws, n) == newlines
    && (forall m :: 1 <= m < n ==> OldCount(raws, m) != oldlines || NewCount(raws, m) != newlines)
    && Changes(raws, n)
  }

  /** A fragment as the parser makes it: its n lines, and perhaps the note on the missing newline. */
  ghost predicate ParsedWith(frag: Fragment, n: nat) {
    var raws := SplitLines(frag.patch);
    && raws != [] && raws[0][0] == '@'
    && Accepts(raws, n, frag.oldlines, frag.newlines)
    && (|raws| == n || (|raws| == n + 1 && IsNote(raws[n])))
    && frag.leading == Lead(raws, n) && frag.trailing == Trail(raws, n)
  }

  ghost predicate Parsed(frag: Fragment) {
    exists n: nat :: ParsedWith(frag, n)
  }

  /** One step back on an unsigned long counter. */
  function Down(x: nat): (r: nat)
    ensures 0 < x <= U64 ==> r == x - 1
  {
    (x + U64 - 1) % U64
  }

  /** The counter after the promised number has been counted down k times. */
  ghost predicate Left(counter: nat, promised: nat, k: nat) {
    counter < U64 && (counter - promised + k) % U64 == 0
  }

  lemma LeftDown(counter: nat, promised: nat, k: nat)
    requires Left(counter, promised, k)
    ensures Left(Down(counter), promised, k + 1)
  {
    if counter == 0 {
      assert Down(0) == U64 - 1;
      assert (U64 - 1 - promised + k + 1) % U64 == (0 - promised + k + U64) % U64;
    }
  }

  lemma LeftZero(counter: nat, promised: nat, k: nat)
    requires Left(counter, promised, k) && promised < U64 && k < U64
    ensures counter == 0 <==> k == promised
  {
  }

  /**
   parse_fragment: reads lines until the header's counts are used up, with counters that wrap around.
   It accepts exactly if some run of good lines meets the counts and changes something.
   */
  method ParseFragment(text: string, header: Option<Header>) returns (r: Option<Fragment>)
    requires |text| < U64
    requires header.Some? ==> text != "" && text[0] == '@' && text[LineLen(text) - 1] == '\n'
    requires header.Some? ==> header.value.oldlines < U64 && header.value.newlines < U64
    ensures r.Some? <==>
      header.Some? && exists n: nat :: Accepts(SplitLines(text), n, header.value.oldlines, header.value.newlines)
    ensures r.Some? ==> Parsed(r.value) && |r.value.patch| <= |text| && r.value.patch == text[..|r.value.patch|]
    ensures r.Some? ==> Header(r.value.oldpos, r.value.oldlines, r.value.newpos, r.value.newlines) == header.value
  {
    hide LineLen, SplitLines, OldCount, NewCount, Lead, Trail, Changes, Accepts, GoodLine, Flat, LineList, Down, Left,
      Parsed;
    if header.None? {
      return None;
    }
    ghost var raws := SplitLines(text);
    var len := LineLen(text);
    var oldlines, newlines := header.value.oldlines, header.value.newlines;
    var leading, trailing := 0, 0;
    var offset := len;
    var deleted, added := 0, 0;
    ghost var n := 1;
    HeaderLine(text);
    LeftStart(oldlines);
    LeftStart(newlines);
    while offset < |text|
      invariant 1 <= n <= |raws| && offset == |Flat(raws[..n])| <= |text|
      invariant forall i :: 1 <= i < n ==> GoodLine(raws[i])
      invariant Left(oldlines, header.value.oldlines, OldCount(raws, n))
      invariant Left(newlines, header.value.newlines, NewCount(raws, n))
      invariant leading == Lead(raws, n) && trailing == Trail(raws, n)
      invariant (deleted > 0 || added > 0) <==> Changes(raws, n)
      invariant 0 <= deleted && 0 <= added
      invariant forall m :: 1 <= m < n ==>
        OldCount(raws, m) != header.value.oldlines || NewCount(raws, m) != header.value.newlines
      decreases |text| - offset
    {
      CountersZero(raws, n, oldlines, newlines, header.value);
      if oldlines == 0 && newlines == 0 {
        break;
      }
      len := LineLen(text[offset..]);
      NextLine(text, n);
      var line := text[offset..offset + len];
      if !GoodLine(line) {
        Rejected(raws, n, header.value);
        return None;
      }
      CountStep(raws, n);
      if line[0] == '\n' || line[0] == ' ' {
        LeftDown(oldlines, header.value.oldlines, OldCount(raws, n));
        LeftDown(newlines, header.value.newlines, NewCount(raws, n));
        oldlines, newlines := Down(oldlines), Down(newlines);
        if deleted == 0 && added == 0 { leading := leading + 1; }
        trailing := trailing + 1;
      } else if line[0] == '-' {
        LeftDown(oldlines, header.value.oldlines, OldCount(raws, n));
        deleted := deleted + 1;
        oldlines := Down(oldlines);
        trailing := 0;
      } else if line[0] == '+' {
        LeftDown(newlines, header.value.newlines, NewCount(raws, n));
        added := added + 1;
        newlines := Down(newlines);
        trailing := 0;
      }
      offset := offset + len;
      n := n + 1;
    }
    CountersZero(raws, n, oldlines, newlines, header.value);
    if oldlines != 0 || newlines != 0 {
      AllRead(text, n);
      Rejected(raws, n, header.value);
      return None;
    }
    if deleted == 0 && added == 0 {
      OnlyShortest(raws, n, header.value);
      return None;
    }
    Accepted(raws, n, header.value);
    ghost var noted := false;
    if 12 < |text| - offset && text[offset] == '\\' && text[offset + 1] == ' ' {
      NextLine(text, n);
      noted := true;
      offset := offset + LineLen(text[offset..]);
    }
    r := Some(Fragment(text[..offset], header.value.oldpos, header.value.oldlines, header.value.newpos,
                       header.value.newlines, leading, trailing));
    Delimited(text, n, if noted then n + 1 else n);
    IsParsed(r.value, raws, n, if noted then n + 1 else n);
  }

  lemma LeftStart(promised: nat)
    requires promised < U64
    ensures Left(promised, promised, 0)
  {
  }

  /** The first line of the text is the header. */
  lemma HeaderLine(text: string)
    requires text != ""
    ensures var raws := SplitLines(text);
      && Nonempty(raws) && raws != [] && |Flat(raws[..1])| == LineLen(text) <= |text| && raws[0] != ""
        && raws[0][0] == text[0]
      && (text[0] == '@' ==>
        OldCount(raws, 1) == NewCount(raws, 1) == Lead(raws, 1) == Trail(raws, 1) == 0 && !Changes(raws, 1))
  {
    hide LineLen;
    SplitMore(text);
    var raws := SplitLines(text);
    assert raws[..1] == [raws[0]];
    FlatOne(raws[0]);
    assert OldCount(raws, 0) == NewCount(raws, 0) == Lead(raws, 0) == Trail(raws, 0) == 0;
  }

  /** Where n lines end, the next one begins. */
  lemma NextLine(text: string, n: nat)
    requires n <= |SplitLines(text)| && |Flat(SplitLines(text)[..n])| < |text|
    ensures var raws, at := SplitLines(text), |Flat(SplitLines(text)[..n])|;
      && n < |raws| && at + LineLen(text[at..]) <= |text| && raws[n] == text[at..at + LineLen(text[at..])]
      && raws[n] != "" && |Flat(raws[..n + 1])| == at + |raws[n]|
  {
    hide LineLen, Flat, SplitLines, LineList;
    var raws := SplitLines(text);
    FlatCut(raws, n);
    if n == |raws| { assert raws[n..] == []; FlatNil(); }
    SplitIsLineList(text);
    LineListTail(raws, n);
    FirstLine(raws[n..]);
    FlatStep(raws, n);
    var at := |Flat(raws[..n])|;
    assert text[at..][..|raws[n]|] == text[at..at + |raws[n]|];
  }

  lemma LineListTail(ls: seq<string>, n: nat)
    requires LineList(ls) && n <= |ls|
    ensures LineList(ls[n..]) && LineList(ls[..n])
  {
  }

  lemma CountStep(raws: seq<string>, n: nat)
    requires n < |raws|
    ensures OldCount(raws, n + 1) == OldCount(raws, n) + if IsContext(raws[n]) || IsDeleted(raws[n]) then 1 else 0
    ensures NewCount(raws, n + 1) == NewCount(raws, n) + if IsContext(raws[n]) || IsAdded(raws[n]) then 1 else 0
    ensures Lead(raws, n + 1) == Lead(raws, n) + if IsContext(raws[n]) && !Changes(raws, n) then 1 else 0
    ensures Trail(raws, n + 1) == if IsContext(raws[n]) then Trail(raws, n) + 1
      else if IsDeleted(raws[n]) || IsAdded(raws[n]) then 0 else Trail(raws, n)
    ensures Changes(raws, n + 1) <==> Changes(raws, n) || IsDeleted(raws[n]) || IsAdded(raws[n])
    ensures GoodLine(raws[n]) ==> IsContext(raws[n]) || IsDeleted(raws[n]) || IsAdded(raws[n]) || IsNote(raws[n])
  {
  }

  /** A zero counter means the count is met: a text is too short for a wrap-around. */
  lemma CountersZero(raws: seq<string>, n: nat, oldlines: nat, newlines: nat, h: Header)
    requires Nonempty(raws) && n <= |raws| && |Flat(raws)| < U64 && h.oldlines < U64 && h.newlines < U64
    requires Left(oldlines, h.oldlines, OldCount(raws, n)) && Left(newlines, h.newlines, NewCount(raws, n))
    ensures oldlines == 0 <==> OldCount(raws, n) == h.oldlines
    ensures newlines == 0 <==> NewCount(raws, n) == h.newlines
  {
    hide Left;
    CountsBounded(raws, n);
    AtLeastOneByte(raws);
    LeftZero(oldlines, h.oldlines, OldCount(raws, n));
    LeftZero(newlines, h.newlines, NewCount(raws, n));
  }

  lemma Rejected(raws: seq<string>, n: nat, h: Header)
    requires 1 <= n <= |raws| && (n < |raws| ==> !GoodLine(raws[n]))
    requires forall m :: 1 <= m <= n ==> OldCount(raws, m) != h.oldlines || NewCount(raws, m) != h.newlines
    ensures forall m: nat :: !Accepts(raws, m, h.oldlines, h.newlines)
  {
    hide OldCount, NewCount, GoodLine;
    forall m: nat ensures !Accepts(raws, m, h.oldlines, h.newlines) {
      if n < m <= |raws| { assert !GoodLine(raws[n]); }
    }
  }

  lemma OnlyShortest(raws: seq<string>, n: nat, h: Header)
    requires 1 <= n <= |raws| && OldCount(raws, n) == h.oldlines && NewCount(raws, n) == h.newlines && !Changes(raws, n)
    requires forall m :: 1 <= m < n ==> OldCount(raws, m) != h.oldlines || NewCount(raws, m) != h.newlines
    ensures forall m: nat :: !Accepts(raws, m, h.oldlines, h.newlines)
  {
  }

  lemma Accepted(raws: seq<string>, n: nat, h: Header)
    requires 1 <= n <= |raws| && OldCount(raws, n) == h.oldlines && NewCount(raws, n) == h.newlines && Changes(raws, n)
    requires forall m :: 1 <= m < n ==> OldCount(raws, m) != h.oldlines || NewCount(raws, m) != h.newlines
    requires forall i :: 1 <= i < n ==> GoodLine(raws[i])
    ensures Accepts(raws, n, h.oldlines, h.newlines)
  {
  }

  lemma AllRead(text: string, n: nat)
    requires n <= |SplitLines(text)| && |Flat(SplitLines(text)[..n])| == |text|
    ensures n == |SplitLines(text)|
  {
    hide SplitLines, Flat;
    var raws := SplitLines(text);
    FlatCut(raws, n);
    SplitIsLineList(text);
    LineListTail(raws, n);
    NoLines(raws[n..]);
  }

  /** The first m lines of a text are the lines of its beginning. */
  lemma Delimited(text: string, n: nat, m: nat)
    requires n <= m <= |SplitLines(text)|
    ensures |Flat(SplitLines(text)[..m])| <= |text|
    ensures SplitLines(text[..|Flat(SplitLines(text)[..m])|]) == SplitLines(text)[..m]
  {
    hide SplitLines, Flat;
    var raws := SplitLines(text);
    FlatCut(raws, m);
    SplitIsLineList(text);
    LineListTail(raws, m);
    SplitIsLineList(Flat(raws[..m]));
    OneLineList(SplitLines(Flat(raws[..m])), raws[..m]);
  }

  /** The counts depend on the counted lines only. */
  lemma {:induction false} SameCounts(raws: seq<string>, m: nat, n: nat)
    requires n <= m <= |raws|
    ensures OldCount(raws[..m], n) == OldCount(raws, n) && NewCount(raws[..m], n) == NewCount(raws, n)
    ensures Lead(raws[..m], n) == Lead(raws, n) && Trail(raws[..m], n) == Trail(raws, n)
    ensures Changes(raws[..m], n) == Changes(raws, n)
  {
    if n > 0 {
      SameCounts(raws, m, n - 1);
      CountStep(raws, n - 1);
      CountStep(raws[..m], n - 1);
    }
  }

  lemma IsParsed(frag: Fragment, raws: seq<string>, n: nat, m: nat)
    requires n <= m <= |raws| && SplitLines(frag.patch) == raws[..m] && raws != [] && raws[0] != "" && raws[0][0] == '@'
    requires Accepts(raws, n, frag.oldlines, frag.newlines) && (m == n || (m == n + 1 && IsNote(raws[n])))
    requires frag.leading == Lead(raws, n) && frag.trailing == Trail(raws, n)
    ensures Parsed(frag)
  {
    hide SplitLines, OldCount, NewCount, Lead, Trail, Changes;
    SameCounts(raws, m, n);
    forall k | 1 <= k < n ensures OldCount(raws[..m], k) != frag.oldlines || NewCount(raws[..m], k) != frag.newlines {
      SameCounts(raws, m, k);
      assert OldCount(raws, k) != frag.oldlines || NewCount(raws, k) != frag.newlines;
    }
    assert ParsedWith(frag, n);
  }

  // ---------------------------------------------------------------------------------------------
  // The two images of a hunk

  datatype Item = Item(text: string, common: bool)

  ghost function Texts(items: seq<Item>): (r: seq<string>)
    ensures |r| == |items| && forall k :: 0 <= k < |items| ==> r[k] == items[k].text
  {
    seq(|items|, k requires 0 <= k < |items| => items[k].text)
  }

  ghost function Rows(items: seq<Item>): (r: seq<Line>)
    ensures |r| == |items|
    ensures forall k :: 0 <= k < |items| ==>
      r[k] == Line(|items[k].text|, Hash24(items[k].text), items[k].common, false)
  {
    seq(|items|, k requires 0 <= k < |items| => Line(|items[k].text|, Hash24(items[k].text), items[k].common, false))
  }

  /** Line i is followed by the note that its newline is missing. */
  predicate Noted(raws: seq<string>, i: nat)
    requires i < |raws|
  {
    i + 1 < |raws| && IsNote(raws[i + 1])
  }

  /** The part of line i that goes into the file. */
  function Text(raws: seq<string>, i: nat): string
    requires i < |raws| && raws[i] != "" && (Noted(raws, i) ==> |raws[i]| >= 2)
  {
    raws[i][1..if Noted(raws, i) then |raws[i]| - 1 else |raws[i]|]
  }

  /** Only complete lines are followed by another line. */
  ghost predicate Raw(raws: seq<string>) {
    LineList(raws)
  }

  /** What the first character of a line means, forwards or in reverse. */
  function First(c: char, inReverse: bool): char {
    if inReverse && c == '-' then '+' else if inReverse && c == '+' then '-' else c
  }

  lemma NotedLong(raws: seq<string>, i: nat)
    requires Raw(raws) && i < |raws|
    ensures raws[i] != "" && (Noted(raws, i) && raws[i][0] != '\n' ==> |raws[i]| >= 2)
  {
  }

  /** What line i adds to the preimage. */
  ghost function PreAt(raws: seq<string>, i: nat, inReverse: bool): seq<Item>
    requires Raw(raws) && i < |raws|
  {
    NotedLong(raws, i);
    var first := First(raws[i][0], inReverse);
    if first == '\n' then (if Noted(raws, i) then [] else [Item("\n", true)])
    else if first == ' ' || first == '-' then [Item(Text(raws, i), first == ' ')]
    else []
  }

  ghost function Pre(raws: seq<string>, n: nat, inReverse: bool): seq<Item>
    requires Raw(raws) && n <= |raws|
  {
    if n == 0 then [] else Pre(raws, n - 1, inReverse) + PreAt(raws, n - 1, inReverse)
  }

  ghost function Post(raws: seq<string>, n: nat, inReverse: bool): seq<Item>
    requires Raw(raws) && n <= |raws|
  {
    Pre(raws, n, !inReverse)
  }

  /** A line that apply_one_fragment knows. */
  predicate Known(r: string) {
    IsContext(r) || IsDeleted(r) || IsAdded(r) || IsNote(r) || (r != "" && r[0] == '@')
  }

  /**
   The first loop of apply_one_fragment: walks over the text of the hunk and fills both images.
   It fails at a line with an unknown first character.
   */
  method BuildImages(patch: string, inReverse: bool) returns (ok: bool, preimage: Image, postimage: Image)
    ensures fresh(preimage) && fresh(postimage) && preimage != postimage
    ensures ok <==> forall i :: 0 <= i < |SplitLines(patch)| ==> Known(SplitLines(patch)[i])
    ensures ok ==> Holds(preimage, Pre(SplitLines(patch), |SplitLines(patch)|, inReverse))
    ensures ok ==> Holds(postimage, Post(SplitLines(patch), |SplitLines(patch)|, inReverse))
  {
    hide LineLen, SplitLines, LineList, Flat, Hash24, Noted, Describes, Pre, PreAt, Post, Texts, Rows, Holds, Raw,
      Known, IsNote;
    preimage := new Image();
    postimage := new Image();
    ghost var raws := SplitLines(patch);
    SplitIsRaw(patch);
    Empty(raws, inReverse);
    HoldsNothing(preimage);
    HoldsNothing(postimage);
    FlatNil();
    var offset := 0;
    ghost var n := 0;
    ok := true;
    while offset < |patch|
      invariant 0 <= n <= |raws| && offset == |Flat(raws[..n])| <= |patch| && Raw(raws)
      invariant forall i :: 0 <= i < n ==> Known(raws[i])
      invariant fresh(preimage) && fresh(postimage) && preimage != postimage
      invariant Holds(preimage, Pre(raws, n, inReverse)) && Holds(postimage, Post(raws, n, inReverse))
      decreases |patch| - offset
    {
      var len := LineLen(patch[offset..]);
      NextLine(patch, n);
      var line := patch[offset..offset + len];
      var plen := len - 1;
      NextNoted(patch, n);
      if len < |patch| - offset && patch[offset + len] == '\\' {
        plen := plen - 1;
      }
      var first := First(line[0], inReverse);
      if !Known(line) {
        assert !Known(raws[n]);
        ok := false;
        return;
      }
      AtLine(raws, n, inReverse);
      KnownFirst(line);
      AddLine(preimage, postimage, line, first, plen, Pre(raws, n, inReverse), Post(raws, n, inReverse));
      offset := offset + len;
      n := n + 1;
    }
    AllRead(patch, n);
  }

  /** The image is made up of these lines. */
  ghost predicate Holds(img: Image, items: seq<Item>)
    reads img
  {
    img.Valid() && img.lines == Texts(items) && img.line == Rows(items)
  }

  /** Adds one line to an image, to its buffer and to its table. */
  method Append(img: Image, text: string, common: bool, ghost items: seq<Item>)
    requires Holds(img, items)
    modifies img
    ensures Holds(img, items + [Item(text, common)])
  {
    hide Flat, Hash24;
    FlatAppend(img.lines, [text]);
    FlatOne(text);
    img.buf := img.buf + text;
    img.AddLineInfo(text, common);
    assert Texts(items + [Item(text, common)]) == Texts(items) + [text];
    assert Rows(items + [Item(text, common)]) == Rows(items) + [Line(|text|, Hash24(text), common, false)];
  }

  lemma KnownFirst(line: string)
    requires Known(line)
    ensures line != ""
    ensures (line[0] == ' ' || line[0] == '\n' || line[0] == '-' || line[0] == '+' || line[0] == '\\' || line[0] == '@')
  {
  }

  /** The switch of apply_one_fragment on the first character, for a line it knows. */
  method AddLine(preimage: Image, postimage: Image, line: string, first: char, plen: int, ghost pre: seq<Item>,
                 ghost post: seq<Item>)
    requires Holds(preimage, pre) && Holds(postimage, post) && preimage != postimage
    requires line != "" && plen < |line| && (first != '\n' ==> plen >= 0)
    modifies preimage, postimage
    ensures first == '\n' && plen >= 0 ==>
      Holds(preimage, pre + [Item("\n", true)]) && Holds(postimage, post + [Item("\n", true)])
    ensures first == ' ' || first == '-' ==> Holds(preimage, pre + [Item(line[1..1 + plen], first == ' ')])
    ensures first == ' ' || first == '+' ==> Holds(postimage, post + [Item(line[1..1 + plen], first == ' ')])
    ensures first != ' ' && first != '-' && (first != '\n' || plen < 0) ==> Holds(preimage, pre)
    ensures first != ' ' && first != '+' && (first != '\n' || plen < 0) ==> Holds(postimage, post)
  {
    hide Holds;
    if first == '\n' {
      if plen >= 0 {
        Append(preimage, "\n", true, pre);
        Append(postimage, "\n", true, post);
      }
    } else {
      if first == ' ' || first == '-' {
        Append(preimage, line[1..1 + plen], first == ' ', pre);
      }
      if first == ' ' || first == '+' {
        Append(postimage, line[1..1 + plen], first == ' ', post);
      }
    }
  }

  /** What line n adds to both images. */
  lemma AtLine(raws: seq<string>, n: nat, inReverse: bool)
    requires Raw(raws) && n < |raws|
    ensures raws[n] != "" && (raws[n][0] != '\n' && Noted(raws, n) ==> |raws[n]| >= 2)
    ensures (raws[n][0] == '\n' ==> |raws[n]| == 1)
    ensures var pre, post := Pre(raws, n, inReverse), Post(raws, n, inReverse);
      var first := First(raws[n][0], inReverse);
      var text := if first == '\n' then "\n" else Text(raws, n);
      && Pre(raws, n + 1, inReverse)
        == (if first == ' ' || first == '-' || (first == '\n' && !Noted(raws, n))
            then pre + [Item(text, first == ' ' || first == '\n')] else pre)
      && Post(raws, n + 1, inReverse)
        == (if first == ' ' || first == '+' || (first == '\n' && !Noted(raws, n))
            then post + [Item(text, first == ' ' || first == '\n')] else post)
  {
    hide Pre, Noted, Text, LineList;
    NotedLong(raws, n);
    FirstLines(raws, n);
    PreLine(raws, n, inReverse);
    PreLine(raws, n, !inReverse);
  }

  lemma FirstLines(raws: seq<string>, n: nat)
    requires Raw(raws) && n < |raws|
    ensures raws[n] != "" && (raws[n][0] == '\n' ==> |raws[n]| == 1)
  {
  }

  lemma PreLine(raws: seq<string>, n: nat, inReverse: bool)
    requires Raw(raws) && n < |raws| && raws[n] != "" && (Noted(raws, n) && raws[n][0] != '\n' ==> |raws[n]| >= 2)
    ensures var first := First(raws[n][0], inReverse);
      var text := if first == '\n' then "\n" else Text(raws, n);
      Pre(raws, n + 1, inReverse) == Pre(raws, n, inReverse) +
        if first == ' ' || first == '-' || (first == '\n' && !Noted(raws, n))
        then [Item(text, first == ' ' || first == '\n')] else []
  {
    hide Noted, Text, LineList;
  }

  lemma HoldsNothing(img: Image)
    requires img.Valid() && img.lines == [] && img.line == []
    ensures Holds(img, [])
  {
  }

  lemma Empty(raws: seq<string>, inReverse: bool)
    requires Raw(raws)
    ensures Pre(raws, 0, inReverse) == Post(raws, 0, inReverse) == []
    ensures Texts([]) == [] && Rows([]) == []
  {
  }

  lemma SplitIsRaw(text: string)
    ensures Raw(SplitLines(text))
  {
  }

  lemma NextNoted(text: string, n: nat)
    requires n < |SplitLines(text)| && |Flat(SplitLines(text)[..n])| < |text|
    ensures var raws, end := SplitLines(text), |Flat(SplitLines(text)[..n])| + |SplitLines(text)[n]|;
      end <= |text| && (Noted(raws, n) <==> end < |text| && text[end] == '\\')
  {
    hide SplitLines, Flat;
    var raws := SplitLines(text);
    FlatStep(raws, n);
    if |Flat(raws[..n + 1])| < |text| {
      NextLine(text, n + 1);
    } else {
      AllRead(text, n + 1);
    }
  }

  // ---------------------------------------------------------------------------------------------
  // The shape of the two images

  /** Empty context lines that are followed by the note, which both images leave out. */
  ghost function Cuts(raws: seq<string>, n: nat): nat
    requires n <= |raws|
  {
    if n == 0 then 0 else
    Cuts(raws, n - 1) + if raws[n - 1] != "" && raws[n - 1][0] == '\n' && Noted(raws, n - 1) then 1 else 0
  }

  ghost predicate AllCommon(items: seq<Item>) {
    forall k :: 0 <= k < |items| ==> items[k].common
  }

  /** Both begin with the same l context lines and end with the same t context lines. */
  ghost predicate Share(pre: seq<Item>, post: seq<Item>, l: nat, t: nat) {
    && l <= |pre| && l <= |post| && pre[..l] == post[..l] && AllCommon(pre[..l])
    && t <= |pre| && t <= |post| && pre[|pre| - t..] == post[|post| - t..] && AllCommon(pre[|pre| - t..])
  }

  /** Line n adds a line to an image, or is left out of both, or belongs to the other. */
  lemma PreLineSize(raws: seq<string>, n: nat, inReverse: bool)
    requires Raw(raws) && n < |raws|
    ensures |Pre(raws, n + 1, inReverse)| + Cuts(raws, n + 1) == |Pre(raws, n, inReverse)| + Cuts(raws, n) +
      if IsContext(raws[n]) || (if inReverse then IsAdded(raws[n]) else IsDeleted(raws[n])) then 1 else 0
  {
    hide Pre, Text, LineList;
    NotedLong(raws, n);
    PreLine(raws, n, inReverse);
  }

  /** Each image has the promised number of lines, but for the empty context lines cut off by a note. */
  lemma {:induction false} ImageSizes(raws: seq<string>, n: nat)
    requires Raw(raws) && n <= |raws|
    ensures |Pre(raws, n, false)| + Cuts(raws, n) == OldCount(raws, n)
    ensures |Post(raws, n, false)| + Cuts(raws, n) == NewCount(raws, n)
  {
    hide Pre, Cuts, OldCount, NewCount, Text, Noted, Raw, Lead, Trail, Changes, LineList;
    Start(raws);
    if n > 0 {
      ImageSizes(raws, n - 1);
      PreLineSize(raws, n - 1, false);
      PreLineSize(raws, n - 1, true);
      CountStep(raws, n - 1);
    }
  }

  /** What a line of the patch puts into an image: all after its mark, without a newline that a note takes off. */
  ghost function Contents(raws: seq<string>, i: nat): string
    requires Raw(raws) && i < |raws|
  {
    NotedLong(raws, i);
    if raws[i][0] == '\n' then "\n"
    else raws[i][1..|raws[i]| - if i + 1 < |raws| && raws[i + 1] != "" && raws[i + 1][0] == '\\' then 1 else 0]
  }

  lemma {:induction false} PrePrefix(raws: seq<string>, m: nat, n: nat, inReverse: bool)
    requires Raw(raws) && m <= n <= |raws|
    ensures |Pre(raws, m, inReverse)| <= |Pre(raws, n, inReverse)|
    ensures Pre(raws, n, inReverse)[..|Pre(raws, m, inReverse)|] == Pre(raws, m, inReverse)
  {
    hide PreAt, Raw;
    if m < n { PrePrefix(raws, m, n - 1, inReverse); }
  }

  /** Line i of the hunk is in the preimage if it is context or deleted, behind those before it; and likewise. */
  lemma ImageLine(raws: seq<string>, n: nat, i: nat)
    requires Raw(raws) && i < n <= |raws| && raws[i] != "" && (raws[i][0] == '\n' ==> !Noted(raws, i))
    ensures IsContext(raws[i]) || IsDeleted(raws[i]) ==>
      var k := OldCount(raws, i) - Cuts(raws, i);
      0 <= k < |Pre(raws, n, false)| && Pre(raws, n, false)[k] == Item(Contents(raws, i), IsContext(raws[i]))
    ensures IsContext(raws[i]) || IsAdded(raws[i]) ==>
      var k := NewCount(raws, i) - Cuts(raws, i);
      0 <= k < |Post(raws, n, false)| && Post(raws, n, false)[k] == Item(Contents(raws, i), IsContext(raws[i]))
  {
    hide *;
    ImageSizes(raws, i);
    PrePrefix(raws, i + 1, n, false);
    PrePrefix(raws, i + 1, n, true);
    LineAdds(raws, i);
    if IsContext(raws[i]) || IsDeleted(raws[i]) { ItemAt(raws, n, i, false); }
    if IsContext(raws[i]) || IsAdded(raws[i]) {
      ItemAt(raws, n, i, true);
      PostIs(raws, i);
      PostIs(raws, n);
    }
  }

  lemma PostIs(raws: seq<string>, n: nat)
    requires Raw(raws) && n <= |raws|
    ensures Post(raws, n, false) == Pre(raws, n, true)
  {
  }

  lemma LineAdds(raws: seq<string>, i: nat)
    requires Raw(raws) && i < |raws| && raws[i] != "" && (raws[i][0] == '\n' ==> !Noted(raws, i))
    ensures IsContext(raws[i]) || IsDeleted(raws[i]) ==>
      PreAt(raws, i, false) == [Item(Contents(raws, i), IsContext(raws[i]))]
    ensures IsContext(raws[i]) || IsAdded(raws[i]) ==>
      PreAt(raws, i, true) == [Item(Contents(raws, i), IsContext(raws[i]))]
  {
    hide Raw;
    NotedLong(raws, i);
  }

  lemma ItemAt(raws: seq<string>, n: nat, i: nat, inReverse: bool)
    requires Raw(raws) && i < n <= |raws| && PreAt(raws, i, inReverse) != []
    requires |Pre(raws, i + 1, inReverse)| <= |Pre(raws, n, inReverse)|
    requires Pre(raws, n, inReverse)[..|Pre(raws, i + 1, inReverse)|] == Pre(raws, i + 1, inReverse)
    ensures |Pre(raws, i, inReverse)| < |Pre(raws, n, inReverse)|
    ensures Pre(raws, n, inReverse)[|Pre(raws, i, inReverse)|] == PreAt(raws, i, inReverse)[0]
  {
    hide PreAt, Raw;
    var k := |Pre(raws, i, inReverse)|;
    assert Pre(raws, n, inReverse)[k] == Pre(raws, n, inReverse)[..|Pre(raws, i + 1, inReverse)|][k];
  }

  /** Leading context: the context lines with no change before them. */
  ghost function LeadLines(raws: seq<string>, n: nat): set<nat>
    requires n <= |raws|
  {
    set i: nat | i < n && IsContext(raws[i]) && !Changes(raws, i)
  }

  lemma LeadLinesStep(raws: seq<string>, n: nat)
    requires n < |raws|
    ensures LeadLines(raws, n + 1)
      == LeadLines(raws, n) + if IsContext(raws[n]) && !Changes(raws, n) then {n} else {}
    ensures n !in LeadLines(raws, n) && LeadLines(raws, 0) == {}
    ensures Lead(raws, n + 1) == Lead(raws, n) + if IsContext(raws[n]) && !Changes(raws, n) then 1 else 0
  {
    hide Changes, IsContext;
  }

  lemma {:induction false} LeadIs(raws: seq<string>, n: nat)
    requires n <= |raws|
    ensures Lead(raws, n) == |LeadLines(raws, n)|
  {
    if n > 0 {
      hide *;
      LeadIs(raws, n - 1);
      LeadLinesStep(raws, n - 1);
    } else {
      assert LeadLines(raws, 0) == {};
    }
  }

  /** No line from i up to n is deleted or added. */
  ghost predicate Quiet(raws: seq<string>, i: nat, n: nat)
    requires n <= |raws|
  {
    forall j :: i <= j < n ==> !IsDeleted(raws[j]) && !IsAdded(raws[j])
  }

  /** Trailing context: the context lines with no change behind them. */
  ghost function TrailLines(raws: seq<string>, n: nat): set<nat>
    requires n <= |raws|
  {
    set i: nat | i < n && IsContext(raws[i]) && Quiet(raws, i, n)
  }

  lemma QuietStep(raws: seq<string>, i: nat, n: nat)
    requires i <= n < |raws|
    ensures Quiet(raws, i, n + 1) <==> Quiet(raws, i, n) && !IsDeleted(raws[n]) && !IsAdded(raws[n])
    ensures Quiet(raws, n, n)
  {
  }

  lemma TrailLinesStep(raws: seq<string>, n: nat)
    requires n < |raws|
    ensures n !in TrailLines(raws, n)
    ensures IsDeleted(raws[n]) || IsAdded(raws[n]) ==> TrailLines(raws, n + 1) == {}
    ensures !IsDeleted(raws[n]) && !IsAdded(raws[n]) ==>
      TrailLines(raws, n + 1) == TrailLines(raws, n) + if IsContext(raws[n]) then {n} else {}
  {
    hide Quiet, IsContext, IsDeleted, IsAdded;
    var next := n + 1;
    forall i: nat | i <= n
      ensures Quiet(raws, i, next) <==> Quiet(raws, i, n) && !IsDeleted(raws[n]) && !IsAdded(raws[n])
      ensures Quiet(raws, n, n) {
      QuietStep(raws, i, n);
    }
    QuietStep(raws, n, n);
    var more: set<nat> := if IsContext(raws[n]) then {n} else {};
    if IsDeleted(raws[n]) || IsAdded(raws[n]) {
      assert TrailLines(raws, next) == {};
    } else {
      assert TrailLines(raws, next) == TrailLines(raws, n) + more;
    }
  }

  lemma TrailStep(raws: seq<string>, n: nat)
    requires n < |raws|
    ensures IsDeleted(raws[n]) || IsAdded(raws[n]) ==> Trail(raws, n + 1) == 0
    ensures !IsDeleted(raws[n]) && !IsAdded(raws[n]) ==>
      Trail(raws, n + 1) == Trail(raws, n) + if IsContext(raws[n]) then 1 else 0
  {
  }

  lemma {:induction false} TrailIs(raws: seq<string>, n: nat)
    requires n <= |raws|
    ensures Trail(raws, n) == |TrailLines(raws, n)|
  {
    if n > 0 {
      hide *;
      TrailIs(raws, n - 1);
      TrailLinesStep(raws, n - 1);
      TrailStep(raws, n - 1);
    } else {
      assert TrailLines(raws, 0) == {};
    }
  }

  /** Until something changes both images are the same context lines. */
  lemma {:induction false} SharedLines(raws: seq<string>, n: nat)
    requires Raw(raws) && n <= |raws| && Cuts(raws, n) == 0
    ensures Share(Pre(raws, n, false), Post(raws, n, false), Lead(raws, n), Trail(raws, n))
    ensures !Changes(raws, n) ==> Pre(raws, n, false) == Post(raws, n, false) && |Pre(raws, n, false)| == Lead(raws, n)
  {
    hide *;
    Start(raws);
    if n > 0 {
      FewerCuts(raws, n - 1);
      SharedLines(raws, n - 1);
      NextShared(raws, n - 1);
    }
  }

  /** One more line keeps what the images share. */
  lemma NextShared(raws: seq<string>, n: nat)
    requires Raw(raws) && n < |raws| && (raws[n] != "" && raws[n][0] == '\n' ==> !Noted(raws, n))
    requires Share(Pre(raws, n, false), Post(raws, n, false), Lead(raws, n), Trail(raws, n))
    requires !Changes(raws, n) ==> Pre(raws, n, false) == Post(raws, n, false) && |Pre(raws, n, false)| == Lead(raws, n)
    ensures Share(Pre(raws, n + 1, false), Post(raws, n + 1, false), Lead(raws, n + 1), Trail(raws, n + 1))
    ensures !Changes(raws, n + 1) ==>
      Pre(raws, n + 1, false) == Post(raws, n + 1, false) && |Pre(raws, n + 1, false)| == Lead(raws, n + 1)
  {
    hide *;
    CountStep(raws, n);
    var a, b := NextItems(raws, n);
    ShareNext(Pre(raws, n, false), Post(raws, n, false), Lead(raws, n), Trail(raws, n), a, b,
              IsContext(raws[n]), IsDeleted(raws[n]) || IsAdded(raws[n]), Changes(raws, n));
  }

  lemma ShareNext(pre: seq<Item>, post: seq<Item>, l: nat, t: nat, a: seq<Item>, b: seq<Item>, context: bool,
                  change: bool, changed: bool)
    requires Share(pre, post, l, t) && (!changed ==> pre == post && |pre| == l)
    requires context ==> |a| == 1 && b == a && a[0].common && a == [a[0]]
    requires !context && !change ==> a == b == []
    ensures context ==> Share(pre + a, post + b, l + if changed then 0 else 1, t + 1)
    ensures !context && change ==> Share(pre + a, post + b, l, 0)
    ensures !context && !change ==> Share(pre + a, post + b, l, t)
    ensures !changed && (context || !change) ==> pre + a == post + b && |pre + a| == l + if context then 1 else 0
  {
    hide Share;
    if context { ShareContext(pre, post, l, t, a[0]); } else { ShareChange(pre, post, l, t, a, b); }
  }

  lemma Start(raws: seq<string>)
    requires Raw(raws)
    ensures Lead(raws, 0) == Trail(raws, 0) == 0
    ensures Pre(raws, 0, false) == Post(raws, 0, false) == [] && Share([], [], 0, 0)
    ensures Cuts(raws, 0) == OldCount(raws, 0) == NewCount(raws, 0) == 0 && !Changes(raws, 0)
  {
  }

  lemma FewerCuts(raws: seq<string>, n: nat)
    requires n < |raws| && Cuts(raws, n + 1) == 0
    ensures Cuts(raws, n) == 0 && (raws[n] != "" && raws[n][0] == '\n' ==> !Noted(raws, n))
  {
  }

  /** Line n adds the same context line to both images, or a change, or nothing. */
  lemma NextItems(raws: seq<string>, n: nat) returns (a: seq<Item>, b: seq<Item>)
    requires Raw(raws) && n < |raws| && (raws[n] != "" && raws[n][0] == '\n' ==> !Noted(raws, n))
    ensures Pre(raws, n + 1, false) == Pre(raws, n, false) + a && Post(raws, n + 1, false) == Post(raws, n, false) + b
    ensures IsContext(raws[n]) ==> |a| == 1 && b == a && a[0].common && a == [a[0]]
    ensures !IsContext(raws[n]) && !IsDeleted(raws[n]) && !IsAdded(raws[n]) ==> a == b == []
  {
    hide Noted, Text, Pre, Post;
    AtLine(raws, n, false);
    var first := raws[n][0];
    var text := if first == '\n' then "\n" else Text(raws, n);
    a := if first == ' ' || first == '-' || first == '\n' then [Item(text, first == ' ' || first == '\n')] else [];
    b := if first == ' ' || first == '+' || first == '\n' then [Item(text, first == ' ' || first == '\n')] else [];
  }

  /** A context line that both get. */
  lemma ShareContext(pre: seq<Item>, post: seq<Item>, l: nat, t: nat, item: Item)
    requires Share(pre, post, l, t) && item.common
    ensures Share(pre + [item], post + [item], l, t + 1)
    ensures pre == post && l == |pre| ==> Share(pre + [item], post + [item], l + 1, t + 1)
  {
    assert (pre + [item])[..l] == pre[..l] && (post + [item])[..l] == post[..l];
    assert (pre + [item])[|pre| - t..] == pre[|pre| - t..] + [item];
    assert (post + [item])[|post| - t..] == post[|post| - t..] + [item];
    if pre == post && l == |pre| {
      assert pre[..l] == pre;
      assert (pre + [item])[..l + 1] == pre + [item];
    }
  }

  lemma ShareChange(pre: seq<Item>, post: seq<Item>, l: nat, t: nat, a: seq<Item>, b: seq<Item>)
    requires Share(pre, post, l, t)
    ensures Share(pre + a, post + b, l, 0)
    ensures a == b == [] ==> Share(pre + a, post + b, l, t)
  {
    assert (pre + a)[..l] == pre[..l] && (post + b)[..l] == post[..l];
    if a == b == [] { assert pre + a == pre && post + b == post; }
  }

  /** The two runs of context do not overlap: a change lies between them. */
  lemma {:induction false} RunsApart(raws: seq<string>, n: nat)
    requires Raw(raws) && n <= |raws| && Cuts(raws, n) == 0
    ensures !Changes(raws, n) ==> Lead(raws, n) == |Pre(raws, n, false)| == |Post(raws, n, false)|
    ensures Changes(raws, n) ==> Lead(raws, n) + Trail(raws, n) <= |Pre(raws, n, false)|
    ensures Changes(raws, n) ==> Lead(raws, n) + Trail(raws, n) <= |Post(raws, n, false)|
  {
    hide Pre, Cuts, OldCount, NewCount, Text, Noted, Raw, Lead, Trail, Changes, LineList;
    Start(raws);
    if n > 0 {
      FewerCuts(raws, n - 1);
      RunsApart(raws, n - 1);
      PreLineSize(raws, n - 1, false);
      PreLineSize(raws, n - 1, true);
      CountStep(raws, n - 1);
    }
  }

  /** The note that ends a text adds nothing. */
  lemma NoteAddsNothing(raws: seq<string>, n: nat, inReverse: bool)
    requires Raw(raws) && n <= |raws| && (|raws| == n || (|raws| == n + 1 && IsNote(raws[n])))
    ensures Pre(raws, |raws|, inReverse) == Pre(raws, n, inReverse) && Cuts(raws, |raws|) == Cuts(raws, n)
  {
    if |raws| == n + 1 { AtLine(raws, n, inReverse); }
  }

  ghost function PreItems(frag: Fragment, inReverse: bool): seq<Item> {
    Pre(SplitLines(frag.patch), |SplitLines(frag.patch)|, inReverse)
  }

  ghost function PostItems(frag: Fragment, inReverse: bool): seq<Item> {
    Post(SplitLines(frag.patch), |SplitLines(frag.patch)|, inReverse)
  }

  ghost function CutLines(frag: Fragment): nat {
    Cuts(SplitLines(frag.patch), |SplitLines(frag.patch)|)
  }

  /**
   The images of a parsed hunk: exactly oldlines and newlines lines, less the empty context lines cut off by
   a note; and without such lines the same context lines at both ends, as many as the parser counted.
   */
  lemma HunkShape(frag: Fragment)
    requires Parsed(frag)
    ensures |PreItems(frag, false)| + CutLines(frag) == frag.oldlines
    ensures |PostItems(frag, false)| + CutLines(frag) == frag.newlines
    ensures CutLines(frag) == 0 ==> Share(PreItems(frag, false), PostItems(frag, false), frag.leading, frag.trailing)
    ensures CutLines(frag) == 0 ==>
      frag.leading + frag.trailing <= Least(|PreItems(frag, false)|, |PostItems(frag, false)|)
    ensures forall i :: 0 <= i < |SplitLines(frag.patch)| ==> Known(SplitLines(frag.patch)[i])
  {
    hide OldCount, NewCount, Lead, Trail, Changes, Pre, Cuts, SplitLines, Share;
    var n: nat :| ParsedWith(frag, n);
    var raws := SplitLines(frag.patch);
    SplitIsLineList(frag.patch);
    NoteAddsNothing(raws, n, false);
    NoteAddsNothing(raws, n, true);
    ImageSizes(raws, n);
    if Cuts(raws, n) == 0 {
      SharedLines(raws, n);
      RunsApart(raws, n);
    }
    KnownLines(raws, n, frag.oldlines, frag.newlines);
  }

  lemma KnownLines(raws: seq<string>, n: nat, oldlines: nat, newlines: nat)
    requires Raw(raws) && Accepts(raws, n, oldlines, newlines) && raws[0][0] == '@'
    requires |raws| == n || (|raws| == n + 1 && IsNote(raws[n]))
    ensures forall i :: 0 <= i < |raws| ==> Known(raws[i])
  {
    hide OldCount, NewCount, Changes;
    forall i | 0 <= i < |raws| ensures Known(raws[i]) {
      if 1 <= i < n { assert GoodLine(raws[i]); }
    }
  }

  /** Reverse application swaps the two images. */
  lemma ReverseSwaps(frag: Fragment)
    ensures PreItems(frag, true) == PostItems(frag, false) && PostItems(frag, true) == PreItems(frag, false)
  {
  }

  /** A hunk of one empty context line with the note: one old line is promised, none is looked for. */
  lemma CutLineExample()
    ensures var raws := ["@@ -1 +1,2 @@\n", "\n", "\\ No newline at end of file\n", "+a\n"];
      Accepts(raws, 4, 1, 2) && Pre(raws, 4, false) == [] && |Post(raws, 4, false)| == 1
  {
  }
}
