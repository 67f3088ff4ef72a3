/**
 Passing blame to a parent across a line diff (blame_chunk, blame_chunk_cb, pass_blame_to_parent in
 git-2.15.0/blame.c).  Both loops of blame_chunk cut the list at a line: Below is what starts before
 the line, ending there, and Above the remainders followed by what starts at or after it.
 */
module BlameCut {
  import opened BlameEntries
  import opened BlameHistory

  function CutLow(e: Entry, t: int): Entry
    requires e.s_lno < t
  {
    if e.s_lno + e.num_lines > t then e.(num_lines := t - e.s_lno, score := 0) else e
  }

  function CutHigh(e: Entry, t: int): seq<Entry>
    requires e.s_lno < t
  {
    if e.s_lno + e.num_lines > t
    then [Entry(e.lno + (t - e.s_lno), e.num_lines - (t - e.s_lno), e.suspect, e.s_lno + (t - e.s_lno), 0)]
    else []
  }

  function Below(es: seq<Entry>, t: int): seq<Entry>
  {
    if es == [] || es[0].s_lno >= t then [] else [CutLow(es[0], t)] + Below(es[1..], t)
  }

  function Remainders(es: seq<Entry>, t: int): seq<Entry>
  {
    if es == [] || es[0].s_lno >= t then [] else CutHigh(es[0], t) + Remainders(es[1..], t)
  }

  function Untouched(es: seq<Entry>, t: int): seq<Entry>
  {
    if es == [] || es[0].s_lno >= t then es else Untouched(es[1..], t)
  }

  function Above(es: seq<Entry>, t: int): seq<Entry> { Remainders(es, t) + Untouched(es, t) }

  /** An entry handed over: other suspect, shifted line. */
  function Hand(e: Entry, offset: int, parent: nat): Entry { e.(suspect := parent, s_lno := e.s_lno + offset) }

  function HandAll(es: seq<Entry>, offset: int, parent: nat): (r: seq<Entry>)
    ensures |r| == |es|
  {
    if es == [] then [] else [Hand(es[0], offset, parent)] + HandAll(es[1..], offset, parent)
  }

  /** The reference counts moved with the entries: gone entries gave theirs back, the new ones hold one each. */
  ghost predicate Balanced(before: seq<int>, after: seq<int>, gone: seq<Entry>, a: seq<Entry>, b: seq<Entry>,
                           c: seq<Entry>)
  {
    |after| == |before| && forall o: nat :: o < |before| ==>
      after[o] == before[o] + Naming(a, o) + Naming(b, o) + Naming(c, o) - Naming(gone, o)
  }

  function One(e: Entry, o: nat): int { if e.suspect == o then 1 else 0 }

  lemma NamingCons(x: Entry, es: seq<Entry>)
    ensures forall o: nat :: Naming([x] + es, o) == One(x, o) + Naming(es, o)
  {
    assert ([x] + es)[1..] == es;
  }

  /** Moving the head of c onto a (as x), and ns more onto b, keeps the balance if the counts moved alike. */
  lemma BalancedStep(before: seq<int>, refs: seq<int>, after: seq<int>, gone: seq<Entry>,
                     a: seq<Entry>, b: seq<Entry>, c: seq<Entry>, x: Entry, ns: seq<Entry>)
    requires Balanced(before, refs, gone, a, b, c) && c != [] && |ns| <= 1 && |after| == |refs|
    requires forall o: nat :: o < |refs| ==>
      after[o] == refs[o] + One(x, o) + (if ns == [] then 0 else One(ns[0], o)) - One(c[0], o)
    ensures Balanced(before, after, gone, [x] + a, ns + b, c[1..])
  {
    NamingCons(x, a);
    NamingCons(c[0], c[1..]);
    assert c == [c[0]] + c[1..];
    if ns == [] { assert ns + b == b; } else { NamingCons(ns[0], b); assert ns == [ns[0]]; }
  }

  /** Pushing x on a stack and popping it from what is still to come. */
  lemma RevPush(x: Entry, stack: seq<Entry>, todo: seq<Entry>)
    ensures Rev([x] + stack) + todo == Rev(stack) + ([x] + todo)
  {
    assert ([x] + stack)[1..] == stack;
  }

  lemma BelowStep(e: seq<Entry>, t: int, offset: int, parent: nat)
    requires e != [] && e[0].s_lno < t
    ensures Below(e, t) == [CutLow(e[0], t)] + Below(e[1..], t)
    ensures HandAll(Below(e, t), offset, parent)
      == [Hand(CutLow(e[0], t), offset, parent)] + HandAll(Below(e[1..], t), offset, parent)
    ensures Remainders(e, t) == CutHigh(e[0], t) + Remainders(e[1..], t)
    ensures Untouched(e, t) == Untouched(e[1..], t)
  {
    assert Below(e, t)[1..] == Below(e[1..], t);
  }

  lemma BelowDone(e: seq<Entry>, t: int)
    requires e == [] || e[0].s_lno >= t
    ensures Below(e, t) == [] == Remainders(e, t) && Untouched(e, t) == e
    ensures forall offset, parent :: HandAll([], offset, parent) == []
  {
  }

  lemma BalancedStart(refs: seq<int>, list: seq<Entry>)
    ensures Balanced(refs, refs, list, [], [], list)
  {
  }

  /** First loop of blame_chunk: hand everything before tlno to the parent. */
  method PassBefore(sb: Scoreboard, rest: seq<Entry>, tlno: int, offset: int, parent: nat)
    returns (samep: seq<Entry>, diffp: seq<Entry>, e: seq<Entry>)
    requires parent < |sb.refcnt| && forall x :: x in rest ==> x.suspect < |sb.refcnt|
    modifies sb`refcnt
    ensures Rev(samep) == HandAll(Below(rest, tlno), offset, parent)
    ensures Rev(diffp) == Remainders(rest, tlno) && e == Untouched(rest, tlno)
    ensures Balanced(old(sb.refcnt), sb.refcnt, rest, samep, diffp, e)
  {
    hide Below, HandAll, Remainders, Untouched, Naming;
    BalancedStart(sb.refcnt, rest);
    e, samep, diffp := rest, [], [];
    while e != [] && e[0].s_lno < tlno
      invariant forall x :: x in e ==> x in rest
      invariant Rev(samep) + HandAll(Below(e, tlno), offset, parent) == HandAll(Below(rest, tlno), offset, parent)
      invariant Rev(diffp) + Remainders(e, tlno) == Remainders(rest, tlno)
      invariant Untouched(e, tlno) == Untouched(rest, tlno)
      invariant Balanced(old(sb.refcnt), sb.refcnt, rest, samep, diffp, e)
    {
      var cur, next := e[0], e[1..];
      ghost var refs, ns, diff0 := sb.refcnt, CutHigh(cur, tlno), diffp;
      BelowStep(e, tlno, offset, parent);
      if cur.s_lno + cur.num_lines > tlno {
        var len := tlno - cur.s_lno;
        var n := Entry(cur.lno + len, cur.num_lines - len, cur.suspect, cur.s_lno + len, 0);
        cur := cur.(num_lines := len, score := 0);
        RevPush(n, diffp, Remainders(next, tlno));
        diffp := [n] + diffp;
      } else {
        sb.DecRef(cur.suspect);
      }
      sb.IncRef(parent);
      cur := cur.(suspect := parent, s_lno := cur.s_lno + offset);
      RevPush(cur, samep, HandAll(Below(next, tlno), offset, parent));
      BalancedStep(old(sb.refcnt), refs, sb.refcnt, rest, samep, diff0, e, cur, ns);
      samep := [cur] + samep;
      assert diffp == ns + diff0;
      e := next;
    }
    BelowDone(e, tlno);
  }

  /** Second loop of blame_chunk: retain everything before same. */
  method RetainWithin(sb: Scoreboard, list: seq<Entry>, same: int)
    returns (samep: seq<Entry>, diffp: seq<Entry>, e: seq<Entry>)
    requires forall x :: x in list ==> x.suspect < |sb.refcnt|
    modifies sb`refcnt
    ensures Rev(diffp) == Below(list, same)
    ensures Rev(samep) == Remainders(list, same) && e == Untouched(list, same)
    ensures Balanced(old(sb.refcnt), sb.refcnt, list, diffp, samep, e)
  {
    hide Below, HandAll, Remainders, Untouched, Naming;
    BalancedStart(sb.refcnt, list);
    e, samep, diffp := list, [], [];
    while e != [] && e[0].s_lno < same
      invariant forall x :: x in e ==> x in list
      invariant Rev(diffp) + Below(e, same) == Below(list, same)
      invariant Rev(samep) + Remainders(e, same) == Remainders(list, same)
      invariant Untouched(e, same) == Untouched(list, same)
      invariant Balanced(old(sb.refcnt), sb.refcnt, list, diffp, samep, e)
    {
      var cur, next := e[0], e[1..];
      ghost var refs, ns, same0 := sb.refcnt, CutHigh(cur, same), samep;
      BelowStep(e, same, 0, 0);
      if cur.s_lno + cur.num_lines > same {
        var len := same - cur.s_lno;
        sb.IncRef(cur.suspect);
        var n := Entry(cur.lno + len, cur.num_lines - len, cur.suspect, cur.s_lno + len, 0);
        cur := cur.(num_lines := len, score := 0);
        RevPush(n, samep, Remainders(next, same));
        samep := [n] + samep;
      }
      RevPush(cur, diffp, Below(next, same));
      BalancedStep(old(sb.refcnt), refs, sb.refcnt, list, diffp, same0, e, cur, ns);
      diffp := [cur] + diffp;
      assert samep == ns + same0;
      e := next;
    }
    BelowDone(e, same);
  }

  lemma RevNaming(es: seq<Entry>)
    ensures forall o: nat :: Naming(Rev(es), o) == Naming(es, o)
  {
    RevBag(es);
    BagCounts(Rev(es), es);
  }

  lemma AboveSuspects(es: seq<Entry>, t: int, n: nat)
    requires forall e :: e in es ==> e.suspect < n
    ensures forall e :: e in Above(es, t) ==> e.suspect < n
  {
    if es != [] && es[0].s_lno < t { AboveSuspects(es[1..], t, n); }
  }

  /** The references the three lists hold between them. */
  ghost function Held(a: seq<Entry>, b: seq<Entry>, c: seq<Entry>, o: nat): nat
  {
    Naming(a, o) + Naming(b, o) + Naming(c, o)
  }

  lemma ChunkBalance(r0: seq<int>, r1: seq<int>, r2: seq<int>, dst: seq<Entry>, kept: seq<Entry>, rest: seq<Entry>,
                     samep: seq<Entry>, diffp: seq<Entry>, e: seq<Entry>, above: seq<Entry>,
                     samep2: seq<Entry>, diffp2: seq<Entry>, e2: seq<Entry>)
    requires Balanced(r0, r1, rest, samep, diffp, e) && above == Rev(diffp) + e
    requires Balanced(r1, r2, above, diffp2, samep2, e2)
    ensures |r0| == |r2|
    ensures forall o: nat :: o < |r0| ==>
      r2[o] - r0[o] == Held(dst + Rev(samep), kept + Rev(diffp2), Rev(samep2) + e2, o) - Held(dst, kept, rest, o)
  {
    RevNaming(samep); RevNaming(diffp); RevNaming(samep2); RevNaming(diffp2);
    NamingConcatAll(Rev(diffp), e);
    NamingConcatAll(dst, Rev(samep));
    NamingConcatAll(kept, Rev(diffp2));
    NamingConcatAll(Rev(samep2), e2);
  }

  /**
   blame_chunk: the parent's line tlno + offset starts differing from the target's line tlno, up to same.
   dst is the parent's new list, kept the part of the target's list already passed by *srcq, rest what
   *srcq points at.
   */
  method BlameChunk(sb: Scoreboard, dst: seq<Entry>, kept: seq<Entry>, rest: seq<Entry>,
                    tlno: int, offset: int, same: int, parent: nat)
    returns (dst': seq<Entry>, kept': seq<Entry>, rest': seq<Entry>)
    requires parent < |sb.refcnt| && forall x :: x in rest ==> x.suspect < |sb.refcnt|
    modifies sb`refcnt
    ensures dst' == dst + HandAll(Below(rest, tlno), offset, parent)
    ensures kept' == kept + Below(Above(rest, tlno), same)
    ensures rest' == Above(Above(rest, tlno), same)
    ensures |sb.refcnt| == old(|sb.refcnt|) && forall x :: x in rest' ==> x.suspect < |sb.refcnt|
    ensures forall o: nat :: o < |sb.refcnt| ==>
      sb.refcnt[o] - old(sb.refcnt)[o] == Held(dst', kept', rest', o) - Held(dst, kept, rest, o)
  {
    hide Below, HandAll, Remainders, Untouched, Naming, Rev, Held;
    AboveSuspects(rest, tlno, |sb.refcnt|);
    AboveSuspects(Above(rest, tlno), same, |sb.refcnt|);
    var samep, diffp, e := PassBefore(sb, rest, tlno, offset, parent);
    ghost var refs := sb.refcnt;
    var passed := ReverseBlame(samep, []);
    dst' := dst + passed;
    var above := ReverseBlame(diffp, e);
    var samep2, diffp2, e2 := RetainWithin(sb, above, same);
    ChunkBalance(old(sb.refcnt), refs, sb.refcnt, dst, kept, rest, samep, diffp, e, above, samep2, diffp2, e2);
    rest' := ReverseBlame(samep2, e2);
    var retained := ReverseBlame(diffp2, []);
    kept' := kept + retained;
  }

  // ---------------------------------------------------------------------------------------------
  // What cutting a list at a line does

  /** All lines of the list lie in lo .. hi. */
  ghost predicate LinesIn(es: seq<Entry>, lo: int, hi: int)
  {
    forall e :: e in es ==> lo <= e.s_lno < e.s_lno + e.num_lines <= hi
  }

  lemma CutStep(es: seq<Entry>, t: int)
    ensures es != [] && es[0].s_lno < t ==>
      Below(es, t) == [CutLow(es[0], t)] + Below(es[1..], t) && Below(es, t)[1..] == Below(es[1..], t)
    ensures es != [] && es[0].s_lno < t ==> Above(es, t) == CutHigh(es[0], t) + Above(es[1..], t)
    ensures es == [] || es[0].s_lno >= t ==> Below(es, t) == [] && Above(es, t) == es
  {
    if es != [] && es[0].s_lno < t {
      BelowStep(es, t, 0, 0);
      AboveAssoc(CutHigh(es[0], t), Remainders(es[1..], t), Untouched(es[1..], t));
    }
  }

  lemma AboveAssoc(a: seq<Entry>, b: seq<Entry>, c: seq<Entry>)
    ensures (a + b) + c == a + (b + c)
  {
  }

  lemma {:induction false} CutSum<T>(es: seq<Entry>, t: int, f: LineFn<T>)
    ensures Sum(es, f) == Sum(Below(es, t), f) + Sum(Above(es, t), f)
  {
    hide Sum, Run, Below, Above;
    CutStep(es, t);
    if es != [] && es[0].s_lno < t {
      CutSum(es[1..], t, f);
      assert es == [es[0]] + es[1..];
      CutOne(es[0], t, f);
      SumCons(es[0], es[1..], f);
      SumCons(CutLow(es[0], t), Below(es[1..], t), f);
      SumConcat(CutHigh(es[0], t), Above(es[1..], t), f);
    } else {
      SumNil(f);
    }
  }

  lemma CutOne<T>(e: Entry, t: int, f: LineFn<T>)
    requires e.s_lno < t
    ensures var l := CutLow(e, t);
      Run(e.lno, e.s_lno, e.num_lines, f) == Run(l.lno, l.s_lno, l.num_lines, f) + Sum(CutHigh(e, t), f)
  {
    if e.s_lno + e.num_lines > t {
      RunSplit(e.lno, e.s_lno, e.num_lines, t - e.s_lno, f);
      assert CutHigh(e, t)[1..] == [];
    }
  }

  lemma SumNil<T>(f: LineFn<T>)
    ensures Sum([], f) == multiset{}
  {
  }

  lemma {:induction false} BelowFrom(es: seq<Entry>, t: int, m: int)
    requires AllFrom(es, m)
    ensures AllFrom(Below(es, t), m)
  {
    if es != [] && es[0].s_lno < t { BelowFrom(es[1..], t, m); }
  }

  /** Of a sorted list, Below lies before the line and is sorted. */
  lemma {:induction false} BelowSorted(es: seq<Entry>, t: int, lo: int, hi: int)
    requires Sorted(es) && LinesIn(es, lo, hi)
    ensures Sorted(Below(es, t)) && LinesIn(Below(es, t), lo, if t < hi then t else hi)
  {
    CutStep(es, t);
    if es != [] && es[0].s_lno < t {
      BelowSorted(es[1..], t, lo, hi);
      BelowFrom(es[1..], t, es[0].s_lno);
    }
  }

  lemma {:induction false} AboveParts(es: seq<Entry>, t: int, hi: int)
    requires Sorted(es) && forall e :: e in es ==> e.s_lno < e.s_lno + e.num_lines <= hi
    ensures forall e :: e in Remainders(es, t) ==> e.s_lno == t < e.s_lno + e.num_lines <= hi
    ensures Sorted(Remainders(es, t)) && Sorted(Untouched(es, t)) && LinesIn(Untouched(es, t), t, hi)
  {
    if es != [] && es[0].s_lno < t {
      AboveParts(es[1..], t, hi);
      SortedConcat(CutHigh(es[0], t), Remainders(es[1..], t), t);
    }
  }

  /** Of a sorted list, Above lies at or after the line and is sorted. */
  lemma AboveSorted(es: seq<Entry>, t: int, hi: int)
    requires Sorted(es) && forall e :: e in es ==> e.s_lno < e.s_lno + e.num_lines <= hi
    ensures Sorted(Above(es, t)) && LinesIn(Above(es, t), t, hi)
  {
    AboveParts(es, t, hi);
    SortedConcat(Remainders(es, t), Untouched(es, t), t);
  }

  lemma {:induction false} LinesCong<T>(es: seq<Entry>, lo: int, hi: int, f: LineFn<T>, g: LineFn<T>)
    requires LinesIn(es, lo, hi) && forall x, s :: lo <= s < hi ==> f(x, s) == g(x, s)
    ensures Sum(es, f) == Sum(es, g)
  {
    hide Run;
    if es != [] {
      assert es[0] in es;
      OneCong(es[0], lo, hi, f, g);
      LinesCong(es[1..], lo, hi, f, g);
    }
  }

  lemma OneCong<T>(e: Entry, lo: int, hi: int, f: LineFn<T>, g: LineFn<T>)
    requires lo <= e.s_lno <= e.s_lno + e.num_lines <= hi && forall x, s :: lo <= s < hi ==> f(x, s) == g(x, s)
    ensures Run(e.lno, e.s_lno, e.num_lines, f) == Run(e.lno, e.s_lno, e.num_lines, g)
  {
    hide Run;
    var d := e.s_lno - e.lno;
    forall x: int | e.lno <= x < e.lno + e.num_lines ensures AgreeAt(f, g, x, d, d) {
      assert f(x, x + d) == g(x, x + d);
    }
    RunCong(e.lno, d, d, e.num_lines, f, g);
  }

  lemma HandRun<T>(e: Entry, offset: int, f: LineFn<T>, g: LineFn<T>)
    requires forall x, s :: e.s_lno <= s < e.s_lno + e.num_lines ==> f(x, s) == g(x, s + offset)
    ensures Run(e.lno, e.s_lno, e.num_lines, f) == Run(e.lno, e.s_lno + offset, e.num_lines, g)
  {
    var d, d' := e.s_lno - e.lno, e.s_lno - e.lno + offset;
    forall x: int | e.lno <= x < e.lno + e.num_lines ensures AgreeAt(f, g, x, d, d') {
      assert f(x, x + d) == g(x, x + d + offset);
      assert x + d + offset == x + d';
    }
    RunCong(e.lno, d, d', e.num_lines, f, g);
  }

  /** Summing f over handed lines is summing over the lines themselves what f says of them once shifted. */
  lemma {:induction false} HandSum<T>(es: seq<Entry>, lo: int, hi: int, offset: int, parent: nat, f: LineFn<T>,
                                      g: LineFn<T>)
    requires LinesIn(es, lo, hi) && forall x, s :: lo <= s < hi ==> f(x, s) == g(x, s + offset)
    ensures Sum(es, f) == Sum(HandAll(es, offset, parent), g)
  {
    hide Sum, Run;
    SumNil(f); SumNil(g);
    if es != [] {
      HandRun(es[0], offset, f, g);
      HandSum(es[1..], lo, hi, offset, parent, f, g);
      assert es == [es[0]] + es[1..];
      SumCons(es[0], es[1..], f);
      SumCons(Hand(es[0], offset, parent), HandAll(es[1..], offset, parent), g);
    }
  }

  lemma {:induction false} HandSorted(es: seq<Entry>, offset: int, parent: nat, lo: int, hi: int)
    requires Sorted(es) && LinesIn(es, lo, hi)
    ensures var r := HandAll(es, offset, parent);
      Sorted(r) && LinesIn(r, lo + offset, hi + offset) && AllNaming(r, parent)
    ensures forall m :: AllFrom(es, m) ==> AllFrom(HandAll(es, offset, parent), m + offset)
  {
    if es != [] {
      HandSorted(es[1..], offset, parent, lo, hi);
      assert HandAll(es, offset, parent)[1..] == HandAll(es[1..], offset, parent);
    }
  }

  lemma SubSlice<T>(a: seq<T>, lo: nat, hi: nat, i: nat, j: nat)
    requires lo <= hi <= |a| && i <= j <= hi - lo
    ensures a[lo..hi][i..j] == a[lo + i..lo + j]
  {
    assert forall k :: 0 <= k < j - i ==> a[lo..hi][i..j][k] == a[lo..hi][i + k];
  }

  /** Any stretch of a good entry's lines is a good entry. */
  lemma StretchOfGood(h: History, e: Entry, i: nat, j: nat)
    requires Good(h, e) && i < j <= e.num_lines
    ensures Good(h, Entry(e.lno + i, j - i, e.suspect, e.s_lno + i, 0))
  {
    SubSlice(h.file[e.suspect], e.s_lno, e.s_lno + e.num_lines, i, j);
    SubSlice(h.image, e.lno, e.lno + e.num_lines, i, j);
  }

  lemma CutGood(h: History, e: Entry, t: int)
    requires Good(h, e) && e.s_lno < t
    ensures Good(h, CutLow(e, t)) && AllGood(h, CutHigh(e, t))
  {
    if e.s_lno + e.num_lines > t {
      StretchOfGood(h, e, 0, t - e.s_lno);
      StretchOfGood(h, e, t - e.s_lno, e.num_lines);
    }
  }

  lemma {:induction false} CutAllGood(h: History, es: seq<Entry>, t: int, o: nat)
    requires AllGood(h, es) && AllNaming(es, o)
    ensures AllGood(h, Below(es, t)) && AllGood(h, Above(es, t))
    ensures AllNaming(Below(es, t), o) && AllNaming(Above(es, t), o)
  {
    CutStep(es, t);
    if es != [] && es[0].s_lno < t {
      CutAllGood(h, es[1..], t, o);
      CutGood(h, es[0], t);
    }
  }

  /** Handed inside a stretch where parent and target have the same lines, an entry stays good. */
  lemma HandOneGood(h: History, e: Entry, lo: nat, hi: int, offset: int, parent: nat)
    requires Good(h, e) && lo <= e.s_lno && e.s_lno + e.num_lines <= hi
    requires parent < |h.file| && hi <= |h.file[e.suspect]| && 0 <= lo + offset && hi + offset <= |h.file[parent]|
    requires h.file[parent][lo + offset..hi + offset] == h.file[e.suspect][lo..hi]
    ensures Good(h, Hand(e, offset, parent))
  {
    var i, j := e.s_lno - lo, e.s_lno - lo + e.num_lines;
    SubSlice(h.file[parent], lo + offset, hi + offset, i, j);
    SubSlice(h.file[e.suspect], lo, hi, i, j);
  }

  lemma {:induction false} HandGood(h: History, es: seq<Entry>, lo: nat, hi: int, offset: int, parent: nat, target: nat)
    requires AllGood(h, es) && AllNaming(es, target) && LinesIn(es, lo, hi)
    requires parent < |h.file| && target < |h.file| && lo <= hi <= |h.file[target]|
    requires 0 <= lo + offset && hi + offset <= |h.file[parent]|
    requires h.file[parent][lo + offset..hi + offset] == h.file[target][lo..hi]
    ensures AllGood(h, HandAll(es, offset, parent))
  {
    hide Good;
    if es != [] {
      HandOneGood(h, es[0], lo, hi, offset, parent);
      HandGood(h, es[1..], lo, hi, offset, parent, target);
    }
  }
}
