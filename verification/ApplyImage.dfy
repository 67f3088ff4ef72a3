/**
 Files as images: a byte buffer and a table of its lines (struct image, git-2.15.0/apply.c).
 The ghost field lines is the list of strings that the table cuts the buffer into.
 */
module ApplyImage {

  // ---------------------------------------------------------------------------------------------
  // Lists of lines

  ghost function Flat(ls: seq<string>): string {
    if ls == [] then [] else ls[0] + Flat(ls[1..])
  }

  lemma {:induction false} FlatAppend(a: seq<string>, b: seq<string>)
    ensures Flat(a + b) == Flat(a) + Flat(b)
  {
    if a == [] {
      assert a + b == b;
    } else {
      FlatAppend(a[1..], b);
      assert (a + b)[1..] == a[1..] + b;
    }
  }

  lemma FlatOne(l: string)
    ensures Flat([l]) == l
  {
    assert [l][1..] == [];
  }

  lemma FlatNil()
    ensures Flat([]) == ""
  {
  }

  /** Cutting a list of lines anywhere cuts its bytes. */
  lemma FlatCut(ls: seq<string>, k: nat)
    requires k <= |ls|
    ensures Flat(ls) == Flat(ls[..k]) + Flat(ls[k..]) && |Flat(ls[..k])| <= |Flat(ls)|
    ensures Flat(ls)[|Flat(ls[..k])|..] == Flat(ls[k..]) && Flat(ls)[..|Flat(ls[..k])|] == Flat(ls[..k])
  {
    hide Flat;
    FlatAppend(ls[..k], ls[k..]);
    assert ls[..k] + ls[k..] == ls;
  }

  lemma FlatStep(ls: seq<string>, k: nat)
    requires k < |ls|
    ensures Flat(ls[..k + 1]) == Flat(ls[..k]) + ls[k] && |Flat(ls[..k + 1])| <= |Flat(ls)|
  {
    hide Flat;
    FlatAppend(ls[..k], [ls[k]]);
    FlatOne(ls[k]);
    assert ls[..k + 1] == ls[..k] + [ls[k]];
    FlatCut(ls, k + 1);
  }

  /** A line with its terminating newline, and no other. */
  ghost predicate Whole(l: string) {
    l != "" && l[|l| - 1] == '\n' && forall i :: 0 <= i < |l| - 1 ==> l[i] != '\n'
  }

  /** A line without a terminating newline. */
  ghost predicate Part(l: string) {
    forall i :: 0 <= i < |l| ==> l[i] != '\n'
  }

  /** The lines of a file: all are complete, only the last may lack its newline. */
  ghost predicate LineList(ls: seq<string>) {
    && (forall k :: 0 <= k < |ls| - 1 ==> Whole(ls[k]))
    && (ls != [] ==> Whole(ls[|ls| - 1]) || (Part(ls[|ls| - 1]) && ls[|ls| - 1] != ""))
  }

  lemma NoLines(a: seq<string>)
    requires LineList(a)
    ensures (a == []) == (Flat(a) == "")
  {
    if a != [] { assert Flat(a)[0] == a[0][0]; }
  }

  /** A byte string has only one list of lines. */
  lemma {:induction false} OneLineList(a: seq<string>, b: seq<string>)
    requires LineList(a) && LineList(b) && Flat(a) == Flat(b)
    ensures a == b
    decreases |a|
  {
    NoLines(a);
    NoLines(b);
    if a != [] {
      FirstLine(a);
      FirstLine(b);
      assert a[0] == b[0];
      assert LineList(a[1..]) && LineList(b[1..]);
      assert Flat(a[1..]) == Flat(a)[|a[0]|..];
      OneLineList(a[1..], b[1..]);
    }
  }

  /** The first line ends at the first newline, or is all there is. */
  lemma FirstLine(a: seq<string>)
    requires LineList(a) && a != []
    ensures a[0] != "" && |a[0]| == LineLen(Flat(a)) && a[0] == Flat(a)[..|a[0]|]
  {
    var s := Flat(a);
    assert s == a[0] + Flat(a[1..]);
    if Whole(a[0]) {
      FirstNewline(s, |a[0]| - 1);
    } else {
      assert a[1..] == [];
      NoNewline(s);
    }
  }

  /** linelen: the length of the first line, its newline included. */
  function LineLen(s: string): (n: nat)
    ensures n <= |s| && (s != "" ==> n > 0)
  {
    if s == "" then 0 else if s[0] == '\n' then 1 else 1 + LineLen(s[1..])
  }

  lemma {:induction false} FirstNewline(s: string, k: nat)
    requires k < |s| && s[k] == '\n' && forall i :: 0 <= i < k ==> s[i] != '\n'
    ensures LineLen(s) == k + 1
  {
    if k > 0 { FirstNewline(s[1..], k - 1); }
  }

  lemma {:induction false} NoNewline(s: string)
    requires Part(s)
    ensures LineLen(s) == |s|
  {
    if s != "" { NoNewline(s[1..]); }
  }

  /** What linelen measures off is a whole line, or the rest. */
  lemma {:induction false} LineLenCuts(s: string)
    requires s != ""
    ensures Whole(s[..LineLen(s)]) || (Part(s) && LineLen(s) == |s|)
  {
    if s[0] != '\n' && |s| > 1 {
      LineLenCuts(s[1..]);
      var n := LineLen(s[1..]);
      var whole, rest := s[..n + 1], s[1..][..n];
      assert whole == [s[0]] + rest;
      if Whole(rest) {
        assert Whole(whole);
      } else {
        assert s == [s[0]] + s[1..];
      }
    }
  }

  /** The lines of a byte string. */
  function SplitLines(s: string): (ls: seq<string>)
    ensures LineList(ls) && Flat(ls) == s
    decreases |s|
  {
    if s == "" then [] else
    var n := LineLen(s);
    SplitsOff(s);
    [s[..n]] + SplitLines(s[n..])
  }

  lemma SplitsOff(s: string)
    requires s != ""
    ensures Whole(s[..LineLen(s)]) || (s[..LineLen(s)] == s && Part(s))
    ensures s[..LineLen(s)] + s[LineLen(s)..] == s
  {
    LineLenCuts(s);
  }

  // ---------------------------------------------------------------------------------------------
  // The line table

  predicate IsSpace(c: char) {
    c == ' ' || c == '\t' || c == '\n' || c == '\r'
  }

  /** hash_line: 32-bit arithmetic over the bytes that are not white space. */
  function Hash(s: string): nat {
    if s == "" then 0 else
    var n := |s| - 1;
    if IsSpace(s[n]) then Hash(s[..n]) else (Hash(s[..n]) * 3 + (s[n] as int) % 256) % 0x1_0000_0000
  }

  method HashLine(cp: string) returns (h: nat)
    ensures h == Hash(cp)
  {
    h := 0;
    var i := 0;
    while i < |cp|
      invariant 0 <= i <= |cp| && h == Hash(cp[..i])
    {
      assert cp[..i + 1][..i] == cp[..i];
      if !IsSpace(cp[i]) {
        h := (h * 3 + (cp[i] as int) % 256) % 0x1_0000_0000;
      }
      i := i + 1;
    }
    assert cp[..i] == cp;
  }

  /** A row of the table; the hash keeps 24 bits. */
  datatype Line = Line(len: nat, hash: nat, common: bool, patched: bool)

  function Hash24(s: string): nat {
    Hash(s) % 0x100_0000
  }

  /** The table describes these lines. */
  ghost predicate Describes(line: seq<Line>, ls: seq<string>) {
    |line| == |ls| && forall k :: 0 <= k < |ls| ==> line[k].len == |ls[k]| && line[k].hash == Hash24(ls[k])
  }

  ghost predicate Fresh(line: seq<Line>) {
    forall k :: 0 <= k < |line| ==> !line[k].patched
  }

  function MarkPatched(line: seq<Line>): (r: seq<Line>)
    ensures |r| == |line| && forall k :: 0 <= k < |line| ==> r[k] == line[k].(patched := true)
  {
    seq(|line|, k requires 0 <= k < |line| => line[k].(patched := true))
  }

  function Least(a: int, b: int): int {
    if a <= b then a else b
  }

  class Image {
    var buf: string
    var line: seq<Line>
    ghost var lines: seq<string>

    /** The table partitions the buffer. */
    ghost predicate Valid()
      reads this
    {
      Describes(line, lines) && Flat(lines) == buf
    }

    constructor ()
      ensures Valid() && lines == [] && line == []
    {
      buf, line, lines := "", [], [];
    }

    /** add_line_info */
    method AddLineInfo(bol: string, common: bool)
      requires Describes(line, lines)
      modifies this`line, this`lines
      ensures Describes(line, lines) && lines == old(lines) + [bol]
      ensures line == old(line) + [Line(|bol|, Hash24(bol), common, false)]
    {
      var hash := HashLine(bol);
      line := line + [Line(|bol|, hash % 0x100_0000, common, false)];
      lines := lines + [bol];
    }

    /** prepare_image: scans for newlines and records every line. */
    method PrepareImage(contents: string)
      modifies this
      ensures Valid() && buf == contents && lines == SplitLines(contents)
      ensures LineList(lines) && Fresh(line)
    {
      hide Flat, LineList, Hash, SplitLines;
      buf, line, lines := contents, [], [];
      FlatNil();
      SplitNil();
      var cp := 0;
      while cp < |buf|
        invariant buf == contents && 0 <= cp <= |buf|
        invariant Describes(line, lines) && Fresh(line)
        invariant Flat(lines) == buf[..cp] && lines + SplitLines(buf[cp..]) == SplitLines(contents)
      {
        var next := cp;
        while next < |buf| && buf[next] != '\n'
          invariant cp <= next <= |buf|
          invariant forall i :: cp <= i < next ==> buf[i] != '\n'
        {
          next := next + 1;
        }
        LineEnds(buf, cp, next);
        if next < |buf| {
          next := next + 1;
        }
        ghost var was := lines;
        AddLineInfo(buf[cp..next], false);
        FlatAppend(was, [buf[cp..next]]);
        FlatOne(buf[cp..next]);
        SplitStep(buf, cp);
        assert was + ([buf[cp..next]] + SplitLines(buf[next..])) == lines + SplitLines(buf[next..]);
        cp := next;
      }
      assert buf[cp..] == "";
      assert lines + [] == lines;
      SplitIsLineList(contents);
    }

    /** remove_first_line */
    method RemoveFirstLine()
      requires Valid() && line != []
      modifies this
      ensures Valid() && lines == old(lines[1..]) && line == old(line[1..])
    {
      hide Flat, Hash24;
      FlatCut(lines, 1);
      assert lines[..1] == [lines[0]];
      FlatOne(lines[0]);
      buf := buf[line[0].len..];
      line := line[1..];
      lines := lines[1..];
    }

    /** remove_last_line */
    method RemoveLastLine()
      requires Valid() && line != []
      modifies this
      ensures Valid() && lines == old(lines[..|lines| - 1]) && line == old(line[..|line| - 1])
    {
      hide Flat, Hash24;
      var n := |line| - 1;
      FlatCut(lines, n);
      assert lines[n..] == [lines[n]];
      FlatOne(lines[n]);
      buf := buf[..|buf| - line[n].len];
      line := line[..n];
      lines := lines[..n];
    }

    /** The byte offset of a line, summed up over the table. */
    method Offset(from: nat, to: nat) returns (count: nat)
      requires Valid() && from <= to <= |line|
      ensures count == |Flat(lines[from..to])|
    {
      hide Flat, Hash24;
      count := 0;
      FlatNil();
      var i := from;
      assert lines[from..from] == [];
      while i < to
        invariant from <= i <= to && count == |Flat(lines[from..i])|
      {
        assert lines[from..i + 1][..i - from] == lines[from..i];
        assert lines[from..i + 1][..i - from + 1] == lines[from..i + 1];
        FlatStep(lines[from..i + 1], i - from);
        count := count + line[i].len;
        i := i + 1;
      }
    }

    /**
     update_image: the lines of the preimage at appliedPos give way to the lines of the postimage, in the
     buffer and in the table, whether the table grows, shrinks or keeps its size.
     */
    method UpdateImage(appliedPos: nat, preimage: Image, postimage: Image, allowOverlap: bool)
      requires Valid() && preimage.Valid() && postimage.Valid() && appliedPos <= |line| && postimage != this
      modifies this
      ensures Valid()
      ensures var gone := Least(old(|preimage.lines|), old(|lines|) - appliedPos);
        lines == old(lines[..appliedPos]) + postimage.lines + old(lines)[appliedPos + gone..]
      ensures var gone := Least(old(|preimage.lines|), old(|lines|) - appliedPos);
        line == old(line[..appliedPos]) + (if allowOverlap then postimage.line else MarkPatched(postimage.line))
          + old(line)[appliedPos + gone..]
    {
      hide Flat, Hash24, MarkPatched, Describes;
      SameSize(line, lines);
      SameSize(preimage.line, preimage.lines);
      var limit := |preimage.line|;
      if limit > |line| - appliedPos {
        limit := |line| - appliedPos;
      }
      var appliedAt := Offset(0, appliedPos);
      var removeCount := Offset(appliedPos, appliedPos + limit);
      Spliced(lines, appliedPos, limit, postimage.lines);
      buf := buf[..appliedAt] + postimage.buf + buf[appliedAt + removeCount..];
      var rest := line[appliedPos + limit..];
      ghost var was := line;
      line := line[..appliedPos] + postimage.line + rest;
      if !allowOverlap {
        line := line[..appliedPos] + MarkPatched(postimage.line) + rest;
      }
      SplicedTable(was, lines, appliedPos, limit, postimage.line, postimage.lines);
      lines := lines[..appliedPos] + postimage.lines + lines[appliedPos + limit..];
    }
  }

  lemma SameSize(line: seq<Line>, ls: seq<string>)
    requires Describes(line, ls)
    ensures |line| == |ls|
  {
  }

  lemma SplicedTable(line: seq<Line>, ls: seq<string>, pos: nat, limit: nat, pl: seq<Line>, pls: seq<string>)
    requires Describes(line, ls) && Describes(pl, pls) && pos + limit <= |ls|
    ensures Describes(line[..pos] + pl + line[pos + limit..], ls[..pos] + pls + ls[pos + limit..])
    ensures Describes(line[..pos] + MarkPatched(pl) + line[pos + limit..], ls[..pos] + pls + ls[pos + limit..])
    ensures (line[..pos] + pl + line[pos + limit..])[..pos] == line[..pos]
  {
    hide Hash24, MarkPatched;
    DescribesAppend(line[..pos], ls[..pos], pl, pls);
    DescribesAppend(line[..pos] + pl, ls[..pos] + pls, line[pos + limit..], ls[pos + limit..]);
    DescribesAppend(line[..pos], ls[..pos], MarkPatched(pl), pls);
    DescribesAppend(line[..pos] + MarkPatched(pl), ls[..pos] + pls, line[pos + limit..], ls[pos + limit..]);
  }

  lemma DescribesAppend(a: seq<Line>, als: seq<string>, b: seq<Line>, bls: seq<string>)
    requires Describes(a, als) && Describes(b, bls)
    ensures Describes(a + b, als + bls)
  {
    hide Hash24;
  }

  lemma SplitNil()
    ensures SplitLines("") == []
  {
  }

  lemma SplitIsLineList(s: string)
    ensures LineList(SplitLines(s))
  {
  }

  lemma SplitMore(s: string)
    requires s != ""
    ensures SplitLines(s) == [s[..LineLen(s)]] + SplitLines(s[LineLen(s)..])
  {
  }

  lemma SplitStep(s: string, cp: nat)
    requires cp < |s|
    ensures cp + LineLen(s[cp..]) <= |s|
    ensures SplitLines(s[cp..]) == [s[cp..cp + LineLen(s[cp..])]] + SplitLines(s[cp + LineLen(s[cp..])..])
  {
    hide LineLen;
    var n := LineLen(s[cp..]);
    SplitMore(s[cp..]);
    assert s[cp..][..n] == s[cp..cp + n] && s[cp..][n..] == s[cp + n..];
  }

  /** The scan for the newline measures the same length as linelen. */
  lemma LineEnds(s: string, cp: nat, next: nat)
    requires cp < |s| && cp <= next <= |s| && (forall i :: cp <= i < next ==> s[i] != '\n')
    requires next < |s| ==> s[next] == '\n'
    ensures LineLen(s[cp..]) == (if next < |s| then next + 1 else next) - cp
  {
    if next < |s| { FirstNewline(s[cp..], next - cp); } else { NoNewline(s[cp..]); }
  }

  /** The bytes of a list of lines after a stretch of it is replaced. */
  lemma Spliced(ls: seq<string>, pos: nat, limit: nat, instead: seq<string>)
    requires pos + limit <= |ls|
    ensures |Flat(ls[0..pos])| + |Flat(ls[pos..pos + limit])| <= |Flat(ls)|
    ensures Flat(ls[..pos] + instead + ls[pos + limit..]) ==
      Flat(ls)[..|Flat(ls[0..pos])|] + Flat(instead) + Flat(ls)[|Flat(ls[0..pos])| + |Flat(ls[pos..pos + limit])|..]
  {
    hide Flat;
    assert ls[0..pos] == ls[..pos];
    FlatCut(ls, pos);
    FlatCut(ls[pos..], limit);
    assert ls[pos..][..limit] == ls[pos..pos + limit] && ls[pos..][limit..] == ls[pos + limit..];
    FlatAppend(ls[..pos] + instead, ls[pos + limit..]);
    FlatAppend(ls[..pos], instead);
  }
}
