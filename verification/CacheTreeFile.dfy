/**
 The cache-tree extension of the index file: write_one and read_one (git-2.15.0/cache-tree.c).
 A buffer is a string of bytes; what follows the data of a node is the rest.
 */
module CacheTreeFile {
  import opened PathNames
  import opened CacheTree
  import opened CacheTreeInvalidate
  import opened CacheTreeUpdate
  import opened CacheTreeIndex
  import opened Decimal

  // ---------------------------------------------------------------------------------------------
  // Numbers: "%d" and strtol

  /** How many leading digits, and the number they continue. */
  function DigitLen(s: string): (k: nat)
    ensures k <= |s|
  {
    if s == [] || !IsDigit(s[0]) then 0 else 1 + DigitLen(s[1..])
  }

  function DigitVal(acc: int, s: string): int
    decreases s
  {
    if s == [] || !IsDigit(s[0]) then acc else DigitVal(acc * 10 + (s[0] as int - '0' as int), s[1..])
  }

  predicate IsSpace(c: char) { c == ' ' || ('\t' <= c <= '\r') }

  function SpaceLen(s: string): (k: nat)
    ensures k <= |s|
  {
    if s == [] || !IsSpace(s[0]) then 0 else 1 + SpaceLen(s[1..])
  }

  /** strtol(s, &end, 10): the value, and how much of s was read; nothing if there is no number. */
  function Strtol(s: string): (r: (int, nat))
    ensures r.1 <= |s|
  {
    var sp := SpaceLen(s);
    var t := s[sp..];
    var sign := if t != [] && (t[0] == '-' || t[0] == '+') then 1 else 0;
    var k := DigitLen(t[sign..]);
    if k == 0 then (0, 0)
    else
      var v := DigitVal(0, t[sign..]);
      (Clamp(if sign == 1 && t[0] == '-' then -v else v), sp + sign + k)
  }

  /** strtol stays within long ... */
  function Clamp(v: int): int
  {
    if v > 0x7fff_ffff_ffff_ffff then 0x7fff_ffff_ffff_ffff
    else if v < -0x8000_0000_0000_0000 then -0x8000_0000_0000_0000 else v
  }

  /** ... and the result is stored in an int. */
  function ToInt(v: int): int { (v + 0x8000_0000) % 0x1_0000_0000 - 0x8000_0000 }

  predicate IsInt(v: int) { -0x8000_0000 <= v < 0x8000_0000 }

  lemma {:induction false} DigitsOfDec(n: nat, tail: string)
    ensures DigitVal(0, DecNat(n) + tail) == DigitVal(n, tail)
    ensures DigitLen(DecNat(n) + tail) == |DecNat(n)| + DigitLen(tail)
  {
    if n < 10 {
      assert (DecNat(n) + tail)[1..] == tail;
    } else {
      var d := [DigitChar(n % 10)];
      assert DecNat(n) + tail == DecNat(n / 10) + (d + tail);
      DigitsOfDec(n / 10, d + tail);
      assert (d + tail)[1..] == tail;
    }
  }

  /** strtol on a number written by %d, up to the next non-digit. */
  lemma StrtolNat(m: nat, tail: string)
    requires m <= 0x8000_0000 && (tail == [] || !IsDigit(tail[0]))
    ensures Strtol(DecNat(m) + tail) == (m, |DecNat(m)|)
    ensures Strtol("-" + (DecNat(m) + tail)).0 + m == 0 && Strtol("-" + (DecNat(m) + tail)).1 == 1 + |DecNat(m)|
  {
    hide DecNat, DigitVal, DigitLen;
    DigitsOfDec(m, tail);
    NoDigits(m, tail);
    var s := DecNat(m) + tail;
    assert DecNat(m)[0] in DecNat(m) && s[0] == DecNat(m)[0];
    assert s[0..] == s && ("-" + s)[0..] == "-" + s && ("-" + s)[1..] == s;
    assert SpaceLen(s) == 0 && SpaceLen("-" + s) == 0;
  }

  lemma NoDigits(m: int, tail: string)
    requires tail == [] || !IsDigit(tail[0])
    ensures DigitVal(m, tail) == m && DigitLen(tail) == 0
  {
  }

  lemma StrtolSpace(s: string)
    requires s != [] && !IsSpace(s[0]) && Strtol(s).1 > 0
    ensures Strtol(" " + s) == (Strtol(s).0, 1 + Strtol(s).1)
  {
    hide DigitVal, DigitLen, Clamp;
    assert (" " + s)[1..] == s && s[0..] == s;
    assert SpaceLen(" " + s) == 1 && SpaceLen(s) == 0;
  }

  /** strtol reads back what %d wrote. */
  lemma StrtolDec(n: int, tail: string)
    requires IsInt(n) && (tail == [] || !IsDigit(tail[0]))
    ensures Strtol(Dec(n) + tail) == (n, |Dec(n)|)
    ensures Strtol(" " + (Dec(n) + tail)) == (n, 1 + |Dec(n)|)
  {
    hide DecNat, Strtol;
    var m := if n < 0 then -n else n;
    StrtolNat(m, tail);
    assert DecNat(m)[0] in DecNat(m);
    if n < 0 { assert Dec(n) + tail == "-" + (DecNat(m) + tail); }
    StrtolSpace(Dec(n) + tail);
  }

  lemma {:induction false} DecPlain(n: int)
    ensures forall c :: c in Dec(n) ==> c != '\0' && c != '\n'
  {
    var m := if n < 0 then -n else n;
    assert forall c :: c in DecNat(m) ==> IsDigit(c);
  }

  // ---------------------------------------------------------------------------------------------
  // Writing

  ghost function Written(path: string, it: Node): string
    decreases it, 0
  {
    path + "\0" + Dec(it.entry_count) + " " + Dec(|it.down|) + "\n"
    + (if it.entry_count >= 0 then it.oid else "") + WrittenSubs(it.down)
  }

  ghost function WrittenSubs(down: seq<Sub>): string
    decreases down, 0
  {
    if down == [] then "" else Written(down[0].name, down[0].child) + WrittenSubs(down[1..])
  }

  /** A root with two entries and a valid id, over an invalid directory a. */
  lemma WrittenExample(oid: Oid, gone: Oid, count: int, used: bool)
    ensures Written("", Node(2, oid, [Sub("a", Node(-1, gone, []), count, used)]))
      == "\0" + "2 1\n" + oid + "a" + "\0" + "-1 0\n"
  {
    var sub := Sub("a", Node(-1, gone, []), count, used);
    assert DecNat(0) == "0" && DecNat(1) == "1" && DecNat(2) == "2";
    assert Written("a", sub.child) == "a" + "\0" + "-1 0\n";
    assert [sub][1..] == [];
    assert WrittenSubs([sub]) == Written("a", sub.child);
  }

  /** What write_one insists on: subtrees strictly in order, everywhere. */
  ghost predicate InOrder(it: Node)
  {
    SortedSubs(it.down) && forall s :: s in it.down ==> InOrder(s.child)
  }

  lemma NeighboursSorted(down: seq<Sub>)
    requires forall i :: 0 < i < |down| ==> NameLt(down[i - 1].name, down[i].name)
    ensures SortedSubs(down)
  {
    hide NameLt;
    var n := 0;
    while n < |down|
      invariant n <= |down| && forall i, j :: 0 <= i < j < n ==> NameLt(down[i].name, down[j].name)
    {
      forall i | 0 <= i < n ensures NameLt(down[i].name, down[n].name) {
        if i < n - 1 { NameLtTransitive(down[i].name, down[n - 1].name, down[n].name); }
      }
      n := n + 1;
    }
  }

  /** write_one; None where it dies because a node's subtrees are not in order. */
  method WriteOne(buffer: string, it: Node, path: string) returns (r: Option<string>)
    ensures r == if InOrder(it) then Some(buffer + Written(path, it)) else None
    decreases it
  {
    hide NameLt, WrittenSubs, InOrder, Dec;
    assert HeadLine(path, it) == path + "\0" + Dec(it.entry_count) + " " + Dec(|it.down|) + "\n";
    var buf := buffer + (path + "\0" + Dec(it.entry_count) + " " + Dec(|it.down|) + "\n");
    if 0 <= it.entry_count {
      buf := buf + it.oid;
    }
    ghost var start := buf;
    var i := 0;
    WrittenStart(it.down);
    while i < |it.down|
      invariant i <= |it.down| && start + WrittenSubs(it.down) == buf + WrittenSubs(it.down[i..])
      invariant forall k :: 0 < k < i ==> NameLt(it.down[k - 1].name, it.down[k].name)
      invariant forall k :: 0 <= k < i ==> InOrder(it.down[k].child)
    {
      var down := it.down[i];
      if i > 0 {
        var cmp := SubtreeNameCmp(down.name, it.down[i - 1].name);
        if cmp <= 0 {
          NotInOrder(it, i);
          return None;
        }
      }
      WrittenStep(buf, it.down, i);
      assert down in it.down;
      var w := WriteOne(buf, down.child, down.name);
      if w.None? {
        ChildNotInOrder(it, i);
        return None;
      }
      buf := w.value;
      i := i + 1;
    }
    AllInOrder(it);
    WrittenAll(buffer, path, it, start, buf);
    return Some(buf);
  }

  lemma WrittenStart(down: seq<Sub>)
    ensures down[0..] == down && WrittenSubs([]) == ""
  {
  }

  lemma WrittenStep(buf: string, down: seq<Sub>, i: nat)
    requires i < |down|
    ensures buf + WrittenSubs(down[i..]) == (buf + Written(down[i].name, down[i].child)) + WrittenSubs(down[i + 1..])
  {
    hide Written;
    assert down[i..][0] == down[i] && down[i..][1..] == down[i + 1..];
  }

  /** The line that begins a node. */
  ghost function HeadLine(path: string, it: Node): string
  {
    path + "\0" + Dec(it.entry_count) + " " + Dec(|it.down|) + "\n"
  }

  lemma WrittenAll(buffer: string, path: string, it: Node, start: string, buf: string)
    requires start == if 0 <= it.entry_count then buffer + HeadLine(path, it) + it.oid else buffer + HeadLine(path, it)
    requires start + WrittenSubs(it.down) == buf + WrittenSubs(it.down[|it.down|..])
    ensures buf == buffer + Written(path, it)
  {
    hide WrittenSubs, HeadLine;
    WrittenStart(it.down);
    assert it.down[|it.down|..] == [] && buf + "" == buf;
    HeadFirst(path, it);
  }

  lemma HeadFirst(path: string, it: Node)
    ensures Written(path, it)
      == HeadLine(path, it) + (if it.entry_count >= 0 then it.oid else "") + WrittenSubs(it.down)
  {
    hide Dec, WrittenSubs;
  }

  lemma NotInOrder(it: Node, i: nat)
    requires 0 < i < |it.down| && !NameLt(it.down[i - 1].name, it.down[i].name)
    ensures !InOrder(it)
  {
  }

  lemma ChildNotInOrder(it: Node, i: nat)
    requires i < |it.down| && !InOrder(it.down[i].child)
    ensures !InOrder(it)
  {
    assert it.down[i] in it.down;
  }

  lemma AllInOrder(it: Node)
    requires forall k :: 0 < k < |it.down| ==> NameLt(it.down[k - 1].name, it.down[k].name)
    requires forall k :: 0 <= k < |it.down| ==> InOrder(it.down[k].child)
    ensures InOrder(it)
  {
    NeighboursSorted(it.down);
    forall s | s in it.down ensures InOrder(s.child) { var k :| 0 <= k < |it.down| && it.down[k] == s; }
  }

  // ---------------------------------------------------------------------------------------------
  // Reading

  /** NULL for a malformed buffer, a fatal error, or a node and the rest of the buffer. */
  datatype Read = Null | Die | Ok(node: Node, rest: string)

  /** The length of the C string at the start of s, or all of s. */
  function CLen(s: string): (k: nat)
    ensures k <= |s| && (k < |s| ==> s[k] == '\0') && '\0' !in s[..k]
  {
    if s == [] || s[0] == '\0' then 0
    else
      var k := CLen(s[1..]);
      assert s[..k + 1] == [s[0]] + s[1..][..k];
      1 + k
  }

  /** Where the scan for the end of the numbers stops. */
  function LineLen(s: string): (k: nat)
    ensures k <= |s|
  {
    if s == [] || s[0] == '\0' || s[0] == '\n' then 0 else 1 + LineLen(s[1..])
  }

  /** A subtree put at the place of its name, or in place of one with the same name. */
  ghost function Put(down: seq<Sub>, name: string, child: Node): seq<Sub>
  {
    if down == [] then [Sub(name, child, 0, false)]
    else if down[0].name == name then [down[0].(child := child)] + down[1..]
    else if NameLt(name, down[0].name) then [Sub(name, child, 0, false)] + down
    else [down[0]] + Put(down[1..], name, child)
  }

  /** The part of read_one before the subtrees: entry count, number of subtrees, id, and what follows. */
  datatype Head = NoHead | Head(count: int, nr: int, oid: Oid, rest: string)

  ghost function ParseHead(buf: string): (h: Head)
    ensures h.Head? ==> |h.rest| < |buf|
  {
    var z := CLen(buf);
    if z == |buf| then NoHead else
    var line := buf[z + 1..];
    var first := Strtol(line);
    if first.1 == 0 then NoHead else
    var second := Strtol(line[first.1..]);
    if second.1 == 0 then NoHead else
    var l := LineLen(line);
    if l == |line| then NoHead else
    var body := line[l + 1..];
    if ToInt(first.0) < 0 then Head(ToInt(first.0), ToInt(second.0), NULL_OID, body)
    else if |body| < 20 then NoHead
    else Head(ToInt(first.0), ToInt(second.0), body[..20], body[20..])
  }

  /** What read_one makes of a buffer. */
  ghost function Parsed(buf: string): (r: Read)
    ensures r.Ok? ==> |r.rest| < |buf|
    decreases |buf|, 0
  {
    var h := ParseHead(buf);
    if h.NoHead? then Null
    else ParsedSubs(h, [], 0, h.rest)
  }

  /** The loop over the subtrees, with i of them read. */
  ghost function ParsedSubs(h: Head, down: seq<Sub>, i: nat, buf: string): (r: Read)
    requires h.Head?
    ensures r.Ok? ==> |r.rest| <= |buf|
    decreases |buf|, 1
  {
    if i >= h.nr then (if h.nr != |down| then Die else Ok(Node(h.count, h.oid, down), buf))
    else
      var sub := Parsed(buf);
      if !sub.Ok? then sub else ParsedSubs(h, Put(down, buf[..CLen(buf)], sub.node), i + 1, sub.rest)
  }

  lemma {:induction false} PutAt(down: seq<Sub>, name: string, child: Node, pos: nat)
    requires SortedSubs(down) && pos < |down| && down[pos].name == name
    ensures Put(down, name, child) == down[pos := down[pos].(child := child)]
  {
    if pos > 0 {
      NameLtTotal(down[0].name, name);
      PutAt(down[1..], name, child, pos - 1);
    }
  }

  lemma {:induction false} PutNew(down: seq<Sub>, name: string, child: Node, pos: nat)
    requires SortedSubs(down) && pos <= |down| && (forall s :: s in down ==> s.name != name)
    requires forall i :: 0 <= i < |down| ==> if i < pos then NameLt(down[i].name, name) else NameLt(name, down[i].name)
    ensures Put(down, name, child) == down[..pos] + [Sub(name, child, 0, false)] + down[pos..]
  {
    hide NameLt;
    if down != [] {
      assert down[0] in down;
      NameLtTotal(down[0].name, name);
      if pos > 0 {
        var tail := down[1..];
        forall i | 0 <= i < |tail|
          ensures if i < pos - 1 then NameLt(tail[i].name, name) else NameLt(name, tail[i].name)
        {
          assert tail[i] == down[i + 1];
        }
        PutNew(tail, name, child, pos - 1);
        PutShift(down, pos, Sub(name, child, 0, false));
      } else {
        assert down[..0] == [] && down[0..] == down;
      }
    }
  }

  lemma PutShift(down: seq<Sub>, pos: nat, s: Sub)
    requires 0 < pos <= |down|
    ensures [down[0]] + (down[1..][..pos - 1] + [s] + down[1..][pos - 1..]) == down[..pos] + [s] + down[pos..]
  {
  }

  lemma {:induction false} PutSorted(down: seq<Sub>, name: string, child: Node)
    requires SortedSubs(down)
    ensures SortedSubs(Put(down, name, child))
    ensures forall s :: s in Put(down, name, child) ==> s.name == name || s in down
  {
    hide NameLt;
    if down != [] && down[0].name != name {
      NameLtTotal(name, down[0].name);
      if NameLt(name, down[0].name) {
        forall i | 0 <= i < |down| ensures NameLt(name, down[i].name) {
          if i > 0 { NameLtTransitive(name, down[0].name, down[i].name); }
        }
      } else {
        PutSorted(down[1..], name, child);
        forall s | s in Put(down[1..], name, child) ensures NameLt(down[0].name, s.name) {
          if s in down[1..] { var i :| 0 <= i < |down[1..]| && down[1..][i] == s; assert down[i + 1] == s; }
        }
      }
    }
  }

  /** cache_tree_sub, and the child hung on what it returns. */
  method CacheTreeSub(down: seq<Sub>, name: string, child: Node) returns (down': seq<Sub>)
    requires SortedSubs(down)
    ensures down' == Put(down, name, child) && SortedSubs(down')
  {
    hide NameLt, Put;
    PutSorted(down, name, child);
    var p := SubtreePos(down, name);
    if p >= 0 {
      PutAt(down, name, child, p);
      return down[p := down[p].(child := child)];
    }
    Missing(down, name, p);
    PutNew(down, name, child, -p - 1);
    down' := down[..-p - 1] + [Sub(name, child, 0, false)] + down[-p - 1..];
  }

  /** read_one up to the subtrees. */
  method ReadHead(buffer: string) returns (h: Head)
    ensures h == ParseHead(buffer)
  {
    hide Strtol, ToInt, CLen, LineLen;
    var z := EndOfName(buffer);
    if z == |buffer| { return NoHead; }
    var line := buffer[z + 1..];
    var first := Strtol(line);
    if first.1 == 0 { return NoHead; }
    var second := Strtol(line[first.1..]);
    if second.1 == 0 { return NoHead; }
    var l := EndOfLine(line);
    if l == |line| { return NoHead; }
    var body := line[l + 1..];
    if 0 <= ToInt(first.0) {
      if |body| < 20 { return NoHead; }
      return Head(ToInt(first.0), ToInt(second.0), body[..20], body[20..]);
    }
    return Head(ToInt(first.0), ToInt(second.0), NULL_OID, body);
  }

  method EndOfName(buffer: string) returns (z: nat)
    ensures z == CLen(buffer)
  {
    z := 0;
    while z < |buffer| && buffer[z] != '\0'
      invariant z <= |buffer| && CLen(buffer) == z + CLen(buffer[z..])
    {
      z := z + 1;
    }
  }

  method EndOfLine(line: string) returns (l: nat)
    ensures l == LineLen(line)
  {
    l := 0;
    while l < |line| && line[l] != '\0' && line[l] != '\n'
      invariant l <= |line| && LineLen(line) == l + LineLen(line[l..])
    {
      l := l + 1;
    }
  }

  /** read_one */
  method ReadOne(buffer: string) returns (r: Read)
    ensures r == Parsed(buffer)
    decreases |buffer|
  {
    hide NameLt, Put, ParseHead;
    var h := ReadHead(buffer);
    if h.NoHead? { return Null; }
    var down: seq<Sub>, buf, i := [], h.rest, 0;
    while i < h.nr
      invariant SortedSubs(down) && |buf| < |buffer| && (h.nr >= 0 ==> i <= h.nr) && 0 <= i
      invariant ParsedSubs(h, down, i, buf) == Parsed(buffer)
      decreases h.nr - i
    {
      var name := buf[..CLen(buf)];
      var sub := ReadOne(buf);
      if !sub.Ok? { return sub; }
      down := CacheTreeSub(down, name, sub.node);
      buf := sub.rest;
      i := i + 1;
    }
    if h.nr != |down| { return Die; }
    return Ok(Node(h.count, h.oid, down), buf);
  }

  // ---------------------------------------------------------------------------------------------
  // The round trip

  /** A tree the file format can hold: names without NUL, strictly in order; counts in range; real ids. */
  ghost predicate Storable(it: Node)
  {
    && IsInt(it.entry_count) && IsInt(|it.down|) && (it.entry_count >= 0 ==> |it.oid| == 20)
    && SortedSubs(it.down)
    && (forall s :: s in it.down ==> '\0' !in s.name && Storable(s.child))
  }

  /** The tree as far as the file tells it: invalid nodes have no id, the scratch fields are clear. */
  ghost function Stored(it: Node): Node
    decreases it, 0
  {
    Node(it.entry_count, if it.entry_count >= 0 then it.oid else NULL_OID, StoredSubs(it.down))
  }

  ghost function StoredSubs(down: seq<Sub>): (r: seq<Sub>)
    ensures |r| == |down|
    decreases down, 0
  {
    if down == [] then [] else [Sub(down[0].name, Stored(down[0].child), 0, false)] + StoredSubs(down[1..])
  }

  lemma {:induction false} CLenAt(a: string, b: string)
    requires '\0' !in a
    ensures CLen(a + "\0" + b) == |a|
  {
    var s := a + "\0" + b;
    if a != [] {
      assert s[0] == a[0] && a[0] in a;
      assert s[1..] == a[1..] + "\0" + b;
      CLenAt(a[1..], b);
    }
  }

  lemma {:induction false} LineLenAt(a: string, b: string)
    requires '\0' !in a && '\n' !in a
    ensures LineLen(a + "\n" + b) == |a|
  {
    var s := a + "\n" + b;
    if a != [] {
      assert s[0] == a[0] && a[0] in a;
      assert s[1..] == a[1..] + "\n" + b;
      LineLenAt(a[1..], b);
    }
  }

  /** The numbers of a written node are read back. */
  lemma LineRead(n: int, m: int, body: string)
    requires IsInt(n) && IsInt(m)
    ensures var line := Dec(n) + " " + Dec(m) + "\n" + body;
      && Strtol(line) == (n, |Dec(n)|) && Strtol(line[|Dec(n)|..]) == (m, 1 + |Dec(m)|)
      && LineLen(line) == |Dec(n)| + 1 + |Dec(m)| && line[LineLen(line) + 1..] == body && |Dec(n)| > 0
  {
    hide Dec, Strtol, LineLen;
    var line := Dec(n) + " " + Dec(m) + "\n" + body;
    StrtolDec(n, " " + Dec(m) + "\n" + body);
    assert line == Dec(n) + (" " + Dec(m) + "\n" + body);
    StrtolDec(m, "\n" + body);
    assert line[|Dec(n)|..] == " " + (Dec(m) + ("\n" + body));
    DecPlain(n); DecPlain(m);
    LineLenAt(Dec(n) + " " + Dec(m), body);
    DecSome(n);
  }

  lemma DecSome(n: int)
    ensures |Dec(n)| > 0
  {
  }

  /** The head of a written node is read back. */
  lemma HeadRead(name: string, it: Node, tail: string)
    requires '\0' !in name && IsInt(it.entry_count) && IsInt(|it.down|) && (it.entry_count >= 0 ==> |it.oid| == 20)
    ensures var buf := name + "\0" + (Dec(it.entry_count) + " " + Dec(|it.down|) + "\n"
                                      + ((if it.entry_count >= 0 then it.oid else "") + tail));
      && ParseHead(buf) == Head(it.entry_count, |it.down|, if it.entry_count >= 0 then it.oid else NULL_OID, tail)
      && CLen(buf) == |name| && buf[..|name|] == name
  {
    hide Dec, Strtol, LineLen, CLen, ToInt;
    var oid := if it.entry_count >= 0 then it.oid else "";
    var line := Dec(it.entry_count) + " " + Dec(|it.down|) + "\n" + (oid + tail);
    CLenAt(name, line);
    LineRead(it.entry_count, |it.down|, oid + tail);
    assert (name + "\0" + line)[|name| + 1..] == line;
    IntKept(it.entry_count); IntKept(|it.down|);
    if it.entry_count >= 0 {
      assert (oid + tail)[..20] == oid && (oid + tail)[20..] == tail;
    } else {
      assert oid + tail == tail;
    }
  }

  lemma IntKept(n: int)
    requires IsInt(n)
    ensures ToInt(n) == n
  {
  }

  /** A name after all others goes to the end. */
  lemma {:induction false} PutLast(down: seq<Sub>, name: string, child: Node)
    requires forall s :: s in down ==> NameLt(s.name, name)
    ensures Put(down, name, child) == down + [Sub(name, child, 0, false)]
  {
    hide NameLt;
    if down != [] {
      assert down[0] in down;
      NameLtTotal(down[0].name, name);
      PutLast(down[1..], name, child);
    }
  }

  lemma {:induction false} StoredFields(down: seq<Sub>)
    ensures forall i :: 0 <= i < |down| ==>
      StoredSubs(down)[i].name == down[i].name && StoredSubs(down)[i].child == Stored(down[i].child)
  {
    if down != [] { StoredFields(down[1..]); }
  }

  lemma {:induction false} StoredConcat(a: seq<Sub>, b: seq<Sub>)
    ensures StoredSubs(a + b) == StoredSubs(a) + StoredSubs(b)
  {
    if a == [] {
      assert a + b == b;
    } else {
      assert (a + b)[1..] == a[1..] + b;
      StoredConcat(a[1..], b);
    }
  }

  lemma StoredAt(down: seq<Sub>, i: nat)
    requires i < |down| && SortedSubs(down)
    ensures StoredSubs(down[..i + 1]) == StoredSubs(down[..i]) + [Sub(down[i].name, Stored(down[i].child), 0, false)]
    ensures forall s :: s in StoredSubs(down[..i]) ==> NameLt(s.name, down[i].name)
  {
    hide NameLt;
    assert down[..i + 1] == down[..i] + [down[i]];
    StoredConcat(down[..i], [down[i]]);
    StoredFields(down[..i]);
    forall s | s in StoredSubs(down[..i]) ensures NameLt(s.name, down[i].name) {
      var k :| 0 <= k < i && StoredSubs(down[..i])[k] == s;
    }
  }

  /** read_one on what write_one wrote gives the tree back and leaves exactly what followed it. */
  lemma {:induction false} ReadWritten(name: string, it: Node, rest: string)
    requires Storable(it) && '\0' !in name
    ensures Parsed(Written(name, it) + rest) == Ok(Stored(it), rest)
    ensures CLen(Written(name, it) + rest) == |name| && (Written(name, it) + rest)[..|name|] == name
    decreases it, 1
  {
    hide Dec, ParseHead, CLen, NameLt, WrittenSubs;
    var oid := if it.entry_count >= 0 then it.oid else "";
    var tail := WrittenSubs(it.down) + rest;
    HeadRead(name, it, tail);
    assert Written(name, it) + rest
        == name + "\0" + (Dec(it.entry_count) + " " + Dec(|it.down|) + "\n" + (oid + tail));
    var h := Head(it.entry_count, |it.down|, if it.entry_count >= 0 then it.oid else NULL_OID, tail);
    SubsWritten(h, it, 0, rest);
    assert it.down[..0] == [] && it.down[0..] == it.down;
  }

  lemma {:induction false} SubsWritten(h: Head, it: Node, i: nat, rest: string)
    requires Storable(it) && i <= |it.down| && h.Head? && h.nr == |it.down| && h.count == it.entry_count
    requires h.oid == if it.entry_count >= 0 then it.oid else NULL_OID
    ensures ParsedSubs(h, StoredSubs(it.down[..i]), i, WrittenSubs(it.down[i..]) + rest) == Ok(Stored(it), rest)
    decreases it, 0, |it.down| - i
  {
    hide NameLt, Put, Written, CLen;
    if i == |it.down| {
      assert it.down[i..] == [] && it.down[..i] == it.down;
      assert WrittenSubs(it.down[i..]) + rest == rest;
    } else {
      var s := it.down[i];
      assert s in it.down;
      var later := WrittenSubs(it.down[i + 1..]) + rest;
      assert it.down[i..][0] == s && it.down[i..][1..] == it.down[i + 1..];
      assert WrittenSubs(it.down[i..]) + rest == Written(s.name, s.child) + later;
      ReadWritten(s.name, s.child, later);
      StoredAt(it.down, i);
      PutLast(StoredSubs(it.down[..i]), s.name, Stored(s.child));
      SubsWritten(h, it, i + 1, rest);
    }
  }

  /** cache_tree_read: the root of the tree has no name. */
  method CacheTreeRead(buffer: string) returns (r: Read)
    requires buffer != ""
    ensures r == if buffer[0] != '\0' then Null else Parsed(buffer)
  {
    if buffer[0] != '\0' { return Null; }
    r := ReadOne(buffer);
  }

  /** cache_tree_read on the output of cache_tree_write, as the extension of an index file. */
  method WriteThenRead(root: Node) returns (r: Read)
    requires Storable(root)
    ensures r == Ok(Stored(root), "")
  {
    hide Storable, Parsed, Stored, InOrder;
    StorableInOrder(root);
    var w := WriteOne("", root, "");
    ReadWritten("", root, "");
    assert "" + Written("", root) == Written("", root) + "";
    assert w.value[0] == '\0' by { assert Written("", root)[0] == '\0'; }
    r := CacheTreeRead(w.value);
  }

  lemma {:induction false} StorableInOrder(it: Node)
    requires Storable(it)
    ensures InOrder(it)
  {
    hide NameLt;
    forall s | s in it.down ensures InOrder(s.child) { StorableInOrder(s.child); }
  }

  /** Reading a tree back loses nothing of a fully valid tree but the scratch fields. */
  lemma {:induction false} StoredBare(hash: Hash, it: Node, es: seq<Entry>)
    requires Agrees(hash, it, es)
    ensures Bared(Stored(it)) == Bared(it)
    decreases it
  {
    hide TreeOid, NameLt, Under;
    StoredFields(it.down);
    forall i | 0 <= i < |it.down| ensures Bared(Stored(it.down[i].child)) == Bared(it.down[i].child) {
      assert it.down[i] in it.down;
      StoredBare(hash, it.down[i].child, Under(es, it.down[i].name));
    }
    assert Names(StoredSubs(it.down)) == Names(it.down);
    assert BaredAll(StoredSubs(it.down)) == BaredAll(it.down);
  }
}
