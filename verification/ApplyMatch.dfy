/**
 Looking for the place where a hunk applies, byte for byte (match_fragment and find_pos,
 git-2.15.0/apply.c; no white-space fixing, no --ignore-whitespace).
 */
module ApplyMatch {

  import opened ApplyImage

  ghost predicate Starts(p: string, s: string) {
    |p| <= |s| && s[..|p|] == p
  }

  /**
   What match_fragment accepts at line k: the preimage fits in, at the demanded ends; no line was patched
   already; the hashes agree line by line, and the bytes as one stretch.
   */
  ghost predicate Matches(ls: seq<string>, line: seq<Line>, pre: seq<string>, k: int, atStart: bool, atEnd: bool)
    requires |line| == |ls|
  {
    && 0 <= k && k + |pre| <= |ls|
    && (atEnd ==> k + |pre| == |ls|)
    && (atStart ==> k == 0)
    && Untouched(line, k, |pre|)
    && (forall i :: 0 <= i < |pre| ==> Hash24(pre[i]) == Hash24(ls[k + i]))
    && Starts(Flat(pre), Flat(ls[k..]))
    && (atEnd ==> Flat(pre) == Flat(ls[k..]))
  }

  /** No line of the stretch was written by an earlier hunk. */
  ghost predicate Untouched(line: seq<Line>, k: int, n: nat)
    requires 0 <= k && k + n <= |line|
  {
    forall i :: k <= i < k + n ==> !line[i].patched
  }

  /** The same lines at k, none of them patched already. */
  ghost predicate Equals(ls: seq<string>, line: seq<Line>, pre: seq<string>, k: int)
    requires |line| == |ls|
  {
    0 <= k && k + |pre| <= |ls| && ls[k..k + |pre|] == pre && Untouched(line, k, |pre|)
  }

  /** The ends that the hunk must reach. */
  predicate Anchored(nr: nat, prenr: nat, k: int, atStart: bool, atEnd: bool) {
    (atStart ==> k == 0) && (atEnd ==> k + prenr == nr)
  }

  /** Lines as a hunk has them: complete, but for the last, which may be cut off. */
  ghost predicate Cleaned(pre: seq<string>) {
    && (forall i :: 0 <= i < |pre| - 1 ==> Whole(pre[i]))
    && (pre != [] ==> Whole(pre[|pre| - 1]) || Part(pre[|pre| - 1]))
  }

  /** Equal lines always match. */
  lemma EqualMatches(ls: seq<string>, line: seq<Line>, pre: seq<string>, k: int, atStart: bool, atEnd: bool)
    requires |line| == |ls| && Equals(ls, line, pre, k) && Anchored(|ls|, |pre|, k, atStart, atEnd)
    ensures Matches(ls, line, pre, k, atStart, atEnd)
  {
    hide Flat, Hash24;
    FlatCut(ls[k..], |pre|);
    assert ls[k..][..|pre|] == ls[k..k + |pre|] == pre;
    forall i | 0 <= i < |pre| ensures Hash24(pre[i]) == Hash24(ls[k + i]) {
      assert pre[i] == ls[k..k + |pre|][i];
    }
    if atEnd {
      assert ls[k..] == pre;
    }
  }

  /** The first line of a stretch that starts with a complete line is that line. */
  lemma FirstAgrees(p: string, rest: string, ls: seq<string>)
    requires Whole(p) && LineList(ls) && ls != [] && Starts(p + rest, Flat(ls))
    ensures ls[0] == p && Starts(rest, Flat(ls[1..]))
  {
    hide Flat, LineLen;
    FirstLine(ls);
    WholeFirst(p, rest, Flat(ls));
    FlatCut(ls, 1);
    FlatOne(ls[0]);
    assert ls[..1] == [ls[0]];
    StartsTail(p, rest, Flat(ls[1..]));
  }

  lemma WholeFirst(p: string, rest: string, s: string)
    requires Whole(p) && Starts(p + rest, s)
    ensures |p| <= |s| && s[..|p|] == p && LineLen(s) == |p|
  {
    hide LineLen;
    assert s[..|p|] == s[..|p + rest|][..|p|] == p;
    var n := |p| - 1;
    assert forall i :: 0 <= i <= n ==> s[i] == s[..|p|][i];
    FirstNewline(s, n);
  }

  lemma StartsTail(p: string, rest: string, tail: string)
    requires Starts(p + rest, p + tail)
    ensures Starts(rest, tail)
  {
    assert rest == (p + rest)[|p|..] && (p + tail)[|p|..|p + rest|] == tail[..|rest|];
  }

  /** A stretch of complete lines that agrees byte for byte agrees line by line. */
  lemma {:induction false} BytesAreLines(pre: seq<string>, ls: seq<string>)
    requires Cleaned(pre) && LineList(ls) && |pre| <= |ls| && Starts(Flat(pre), Flat(ls))
    ensures forall i :: 0 <= i < |pre| - 1 ==> pre[i] == ls[i]
    ensures pre != [] ==> Starts(pre[|pre| - 1], ls[|pre| - 1])
    ensures pre != [] && Whole(pre[|pre| - 1]) ==> pre == ls[..|pre|]
    decreases |pre|
  {
    hide Flat;
    if pre != [] {
      FlatCut(pre, 1);
      FlatOne(pre[0]);
      assert pre[..1] == [pre[0]];
      if Whole(pre[0]) {
        FirstAgrees(pre[0], Flat(pre[1..]), ls);
        assert LineList(ls[1..]);
        BytesAreLines(pre[1..], ls[1..]);
        assert pre == [pre[0]] + pre[1..];
        assert ls[..|pre|] == [ls[0]] + ls[1..][..|pre| - 1];
      } else {
        LastAgrees(pre[0], ls);
      }
    }
  }

  /** A cut-off line that agrees with the bytes is the beginning of the first line. */
  lemma LastAgrees(p: string, ls: seq<string>)
    requires Part(p) && LineList(ls) && ls != [] && Starts(p, Flat(ls))
    ensures Starts(p, ls[0])
  {
    var s := Flat(ls);
    assert s == ls[0] + Flat(ls[1..]);
    assert ls[0][|ls[0]| - 1] == s[|ls[0]| - 1];
    if |p| <= |ls[0]| {
      assert s[..|p|] == ls[0][..|p|];
    }
  }

  /**
   What a match means for lines: complete preimages, and those held against the end, match exactly the
   equal lines.  A preimage whose last line is cut off and that is not held against the end also matches
   where that line merely begins the line of the file and hashes like it.
   */
  lemma MatchMeans(ls: seq<string>, line: seq<Line>, pre: seq<string>, k: int, atStart: bool, atEnd: bool)
    requires |line| == |ls| && LineList(ls) && Cleaned(pre)
    ensures pre == [] || atEnd || Whole(pre[|pre| - 1]) ==>
      (Matches(ls, line, pre, k, atStart, atEnd) <==>
        Equals(ls, line, pre, k) && Anchored(|ls|, |pre|, k, atStart, atEnd))
    ensures pre != [] && !atEnd ==>
      (Matches(ls, line, pre, k, atStart, atEnd) <==>
        Equals(ls, line, pre[..|pre| - 1], k) && (atStart ==> k == 0) && k + |pre| <= |ls|
          && !line[k + |pre| - 1].patched
        && Starts(pre[|pre| - 1], ls[k + |pre| - 1]) && Hash24(pre[|pre| - 1]) == Hash24(ls[k + |pre| - 1]))
  {
    hide Flat, Hash24, Whole, Part;
    if Equals(ls, line, pre, k) && Anchored(|ls|, |pre|, k, atStart, atEnd) {
      EqualMatches(ls, line, pre, k, atStart, atEnd);
    }
    if Matches(ls, line, pre, k, atStart, atEnd) {
      MatchIsEqual(ls, line, pre, k, atStart, atEnd);
    }
    if pre != [] && !atEnd && Equals(ls, line, pre[..|pre| - 1], k) && k + |pre| <= |ls| &&
       Starts(pre[|pre| - 1], ls[k + |pre| - 1]) {
      AlmostEqual(ls, line, pre, k);
    }
  }

  /** The bytes of equal lines and of a beginning. */
  lemma AlmostEqual(ls: seq<string>, line: seq<Line>, pre: seq<string>, k: int)
    requires |line| == |ls| && pre != [] && k + |pre| <= |ls|
    requires Equals(ls, line, pre[..|pre| - 1], k) && Starts(pre[|pre| - 1], ls[k + |pre| - 1])
    ensures Starts(Flat(pre), Flat(ls[k..]))
    ensures forall i :: 0 <= i < |pre| - 1 ==> pre[i] == ls[k + i]
  {
    hide Flat, Untouched;
    var n := |pre| - 1;
    FlatStep(pre, n);
    assert pre[..n + 1] == pre;
    var from := ls[k..];
    assert from[..n] == ls[k..k + n] == pre[..n];
    assert from[n] == ls[k + n];
    FlatStep(from, n);
    FlatCut(from, n + 1);
    StartsMore(Flat(pre[..n]), pre[n], from[n], Flat(from[n + 1..]));
    forall i | 0 <= i < n ensures pre[i] == ls[k + i] { assert pre[..n][i] == ls[k..k + n][i]; }
  }

  lemma StartsMore(head: string, p: string, l: string, rest: string)
    requires Starts(p, l)
    ensures Starts(head + p, head + l + rest)
  {
    assert (head + l + rest)[..|head + p|] == head + l[..|p|];
  }

  lemma MatchIsEqual(ls: seq<string>, line: seq<Line>, pre: seq<string>, k: int, atStart: bool, atEnd: bool)
    requires |line| == |ls| && LineList(ls) && Cleaned(pre) && Matches(ls, line, pre, k, atStart, atEnd)
    ensures pre == [] || atEnd || Whole(pre[|pre| - 1]) ==> Equals(ls, line, pre, k)
    ensures pre != [] ==> Equals(ls, line, pre[..|pre| - 1], k) && Starts(pre[|pre| - 1], ls[k + |pre| - 1])
  {
    hide Flat, Hash24, Whole, Part;
    BytesAreLines(pre, ls[k..]);
    assert ls[k..][..|pre|] == ls[k..k + |pre|];
    if pre != [] {
      forall i | 0 <= i < |pre| - 1 ensures pre[i] == ls[k + i] { assert pre[i] == ls[k..][i]; }
      assert ls[k..k + |pre[..|pre| - 1]|] == pre[..|pre| - 1];
    }
    if atEnd {
      assert ls[k..] == ls[k..k + |pre|];
      EndAgrees(pre, ls[k..]);
    }
  }

  /** Held against the end, the cut-off line is the last line of the file. */
  lemma EndAgrees(pre: seq<string>, ls: seq<string>)
    requires Cleaned(pre) && LineList(ls) && |pre| == |ls| && Flat(pre) == Flat(ls)
    ensures pre == ls
  {
    hide Flat, Cleaned, LineList;
    if pre != [] {
      var n := |pre| - 1;
      BytesAreLines(pre, ls);
      assert pre[..n] == ls[..n];
      FlatStep(pre, n);
      FlatStep(ls, n);
      assert pre[..n + 1] == pre && ls[..n + 1] == ls;
      assert pre[n] == (Flat(pre[..n]) + pre[n])[|Flat(pre[..n])|..];
      assert ls[n] == (Flat(ls[..n]) + ls[n])[|Flat(ls[..n])|..];
      assert pre == pre[..n] + [pre[n]];
    }
  }

  /**
   The preimage "ab", cut off before its newline, matches the file "ab \n" when it is not held against
   the end, although no line of the file equals it.
   */
  lemma CutOffMatches()
    ensures var row := Line(4, Hash24("ab \n"), false, false);
      Matches(["ab \n"], [row], ["ab"], 0, false, false) && !Equals(["ab \n"], [row], ["ab"], 0)
  {
    var row := Line(4, Hash24("ab \n"), false, false);
    assert "ab \n"[..3] == "ab " && "ab "[..2] == "ab";
    assert Hash("ab \n") == Hash("ab ") == Hash("ab");
    assert ["ab \n"][0..] == ["ab \n"] && ["ab \n"][1..] == [] && ["ab"][1..] == [];
    assert Flat(["ab"]) == "ab" && Flat(["ab \n"]) == "ab \n";
    assert ["ab \n"][0..0 + 1] == ["ab \n"];
    assert ["ab \n"][0] != ["ab"][0];
  }

  /** match_fragment, exact mode: the bounds, the hashes of the table, then the bytes. */
  method MatchFragment(img: Image, preimage: Image, try: nat, tryLno: nat, matchBeginning: bool, matchEnd: bool)
    returns (matched: bool)
    requires img.Valid() && preimage.Valid() && tryLno <= |img.line| && try == |Flat(img.lines[..tryLno])|
    ensures matched <==> Matches(img.lines, img.line, preimage.lines, tryLno, matchBeginning, matchEnd)
  {
    hide Flat, Hash24, Starts;
    if |preimage.line| + tryLno > |img.line| {
      return false;
    }
    if matchEnd && |preimage.line| + tryLno != |img.line| {
      return false;
    }
    if matchBeginning && tryLno != 0 {
      return false;
    }
    var i := 0;
    while i < |preimage.line|
      invariant 0 <= i <= |preimage.line|
      invariant Untouched(img.line, tryLno, i)
      invariant forall j :: 0 <= j < i ==> Hash24(preimage.lines[j]) == Hash24(img.lines[tryLno + j])
    {
      if img.line[tryLno + i].patched || preimage.line[i].hash != img.line[tryLno + i].hash {
        return false;
      }
      i := i + 1;
    }
    FlatCut(img.lines, tryLno);
    var fits := if matchEnd then try + |preimage.buf| == |img.buf| else try + |preimage.buf| <= |img.buf|;
    matched := fits && img.buf[try..try + |preimage.buf|] == preimage.buf;
    BytesAt(img.buf, try, preimage.buf);
  }

  lemma BytesAt(buf: string, try: nat, pre: string)
    requires try <= |buf|
    ensures Starts(pre, buf[try..]) <==> try + |pre| <= |buf| && buf[try..try + |pre|] == pre
    ensures pre == buf[try..] <==> try + |pre| == |buf| && buf[try..try + |pre|] == pre
  {
    if try + |pre| <= |buf| { assert buf[try..][..|pre|] == buf[try..try + |pre|]; }
    if try + |pre| == |buf| { assert buf[try..] == buf[try..try + |pre|]; }
  }

  // ---------------------------------------------------------------------------------------------
  // find_pos

  /** Where the search starts; a line that would be negative counts as too large, as in an unsigned comparison. */
  function StartLine(nr: nat, prenr: nat, line: int, atStart: bool, atEnd: bool): (start: int)
    ensures 0 <= start <= nr
  {
    var l := if atStart then 0 else if atEnd then nr - prenr else line;
    if l < 0 || l > nr then nr else l
  }

  function Apart(a: int, b: int): nat {
    if a < b then b - a else a - b
  }

  /** r is found before j when the search fans out from start: nearer, or as near and further down. */
  predicate Sooner(start: int, r: int, j: int) {
    Apart(r, start) < Apart(j, start) || (Apart(r, start) == Apart(j, start) && r >= j)
  }

  /**
   find_pos: looks at the start line, then alternately one line further down and one further up.  The line
   found is the nearest match, a later one before an earlier one; none is found only if nothing matches.
   */
  method FindPos(img: Image, preimage: Image, line: int, matchBeginning: bool, matchEnd: bool) returns (pos: int)
    requires img.Valid() && preimage.Valid()
    ensures -1 <= pos <= |img.lines|
    ensures pos >= 0 ==> Matches(img.lines, img.line, preimage.lines, pos, matchBeginning, matchEnd)
    ensures pos >= 0 ==>
      forall j :: Matches(img.lines, img.line, preimage.lines, j, matchBeginning, matchEnd) ==>
        Sooner(StartLine(|img.lines|, |preimage.lines|, line, matchBeginning, matchEnd), pos, j)
    ensures pos == -1 ==> forall j :: !Matches(img.lines, img.line, preimage.lines, j, matchBeginning, matchEnd)
  {
    hide Flat, Hash24, Matches, Zigzag, Sooner;
    var nr := |img.line|;
    var start := if matchBeginning then 0 else if matchEnd then nr - |preimage.line| else line;
    if start < 0 || start > nr {
      start := nr;
    }
    var try := img.Offset(0, start);
    assert img.lines[0..start] == img.lines[..start];
    var backwards, backwardsLno := try, start;
    var forwards, forwardsLno := try, start;
    var tryLno := start;
    var i := 0;
    OnlyInside(img.lines, img.line, preimage.lines, matchBeginning, matchEnd);
    ZigzagStart(start, nr);
    while true
      invariant Zigzag(i, backwardsLno, forwardsLno, tryLno, start, nr)
      invariant 0 <= backwardsLno <= start <= forwardsLno <= nr && 0 <= tryLno <= nr
      invariant backwards == |Flat(img.lines[..backwardsLno])| && forwards == |Flat(img.lines[..forwardsLno])|
      invariant try == |Flat(img.lines[..tryLno])|
      invariant forall j :: backwardsLno <= j <= forwardsLno && j != tryLno ==>
        !Matches(img.lines, img.line, preimage.lines, j, matchBeginning, matchEnd)
      decreases nr - forwardsLno + backwardsLno
    {
      var matched := MatchFragment(img, preimage, try, tryLno, matchBeginning, matchEnd);
      ZigzagStep(i, backwardsLno, forwardsLno, tryLno, start, nr);
      if matched {
        return tryLno;
      }
      if backwardsLno == 0 && forwardsLno == nr {
        return -1;
      }
      if (i % 2 == 1 && backwardsLno == 0) || (i % 2 == 0 && forwardsLno == nr) {
        i := i + 1;
      }
      if i % 2 == 1 {
        backwardsLno := backwardsLno - 1;
        FlatStep(img.lines, backwardsLno);
        backwards := backwards - img.line[backwardsLno].len;
        try, tryLno := backwards, backwardsLno;
      } else {
        FlatStep(img.lines, forwardsLno);
        forwards := forwards + img.line[forwardsLno].len;
        forwardsLno := forwardsLno + 1;
        try, tryLno := forwards, forwardsLno;
      }
      i := i + 1;
    }
  }

  /** Where the search is: it has been between b and f, and tries lines on both sides of s in turn. */
  ghost predicate Zigzag(i: nat, b: int, f: int, t: int, s: int, nr: int)
  {
    && 0 <= b <= s <= f <= nr
    && (f == nr || f - s >= s - b + i % 2)
    && (b == 0 || s - b >= f - s - i % 2)
    && (if i % 2 == 0 then t == b && (b < s || f == s) else t == f && f > s)
  }

  lemma ZigzagStart(s: int, nr: int)
    requires 0 <= s <= nr
    ensures Zigzag(0, s, s, s, s, nr)
  {
  }

  /** The line tried is the nearest of those not tried before, and the next one is found in either direction. */
  lemma ZigzagStep(i: nat, b: int, f: int, t: int, s: int, nr: int)
    requires Zigzag(i, b, f, t, s, nr)
    ensures forall j :: 0 <= j < b || f < j <= nr || j == t ==> Sooner(s, t, j)
    ensures i % 2 == 0 && f < nr ==> Zigzag(i + 1, b, f + 1, f + 1, s, nr)
    ensures i % 2 == 1 && 0 < b ==> Zigzag(i + 1, b - 1, f, b - 1, s, nr)
    ensures i % 2 == 0 && f == nr && 0 < b ==> Zigzag(i + 2, b - 1, f, b - 1, s, nr)
    ensures i % 2 == 1 && b == 0 && f < nr ==> Zigzag(i + 2, b, f + 1, f + 1, s, nr)
  {
  }

  lemma OnlyInside(ls: seq<string>, line: seq<Line>, pre: seq<string>, atStart: bool, atEnd: bool)
    requires |line| == |ls|
    ensures forall j :: Matches(ls, line, pre, j, atStart, atEnd) ==> 0 <= j <= |ls|
  {
  }
}
