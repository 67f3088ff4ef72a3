/**
 The final entries put in order and joined (blame_sort_final, blame_coalesce in git-2.15.0/blame.c), as the
 command does after the run (git-2.15.0/builtin/blame.c).
 */
module BlameOutput {
  import opened BlameEntries
  import opened BlameHistory
  import opened BlameCut
  import opened BlameMove
  import opened BlameMeaning
  import opened BlamePass
  import opened BlameTrail
  import opened BlameThorough
  import opened BlameAssign
  import opened BlameFinal

  // ---------------------------------------------------------------------------------------------
  // blame_sort_final

  function InsertFinal(e: Entry, es: seq<Entry>): seq<Entry>
  {
    if es == [] || e.lno <= es[0].lno then [e] + es else [es[0]] + InsertFinal(e, es[1..])
  }

  /** Stands for llist_mergesort with compare_blame_final. */
  function SortFinal(es: seq<Entry>): seq<Entry>
  {
    if es == [] then [] else InsertFinal(es[0], SortFinal(es[1..]))
  }

  /** blame_sort_final */
  method BlameSortFinal(sb: Scoreboard)
    modifies sb`ent
    ensures sb.ent == SortFinal(old(sb.ent))
  {
    sb.ent := SortFinal(sb.ent);
  }

  ghost predicate ByLine(es: seq<Entry>)
  {
    es == [] || ((forall e :: e in es[1..] ==> es[0].lno <= e.lno) && ByLine(es[1..]))
  }

  lemma {:induction false} InsertByLine(e: Entry, es: seq<Entry>)
    requires ByLine(es)
    ensures ByLine(InsertFinal(e, es)) && multiset(InsertFinal(e, es)) == multiset([e] + es)
    ensures forall x :: x in InsertFinal(e, es) <==> x == e || x in es
  {
    if es == [] || e.lno <= es[0].lno {
      assert ([e] + es)[1..] == es;
      if es != [] {
        assert es == [es[0]] + es[1..];
        forall x | x in es ensures e.lno <= x.lno { assert x == es[0] || x in es[1..]; }
      }
    } else {
      InsertByLine(e, es[1..]);
      assert es == [es[0]] + es[1..];
      assert InsertFinal(e, es)[1..] == InsertFinal(e, es[1..]);
    }
  }

  lemma {:induction false} SortByLine(es: seq<Entry>)
    ensures ByLine(SortFinal(es)) && multiset(SortFinal(es)) == multiset(es)
  {
    if es != [] {
      SortByLine(es[1..]);
      InsertByLine(es[0], SortFinal(es[1..]));
      assert es == [es[0]] + es[1..];
    }
  }

  /** In the order of the final lines, one entry ending before the next starts. */
  ghost predicate Laid(es: seq<Entry>)
  {
    |es| < 2 || (es[0].lno + es[0].num_lines <= es[1].lno && 0 < es[1].num_lines && Laid(es[1..]))
  }

  lemma CoverHead(es: seq<Entry>, x: int)
    requires es != []
    ensures Cover(es)[x]
      == (if es[0].lno <= x < es[0].lno + es[0].num_lines then 1 else 0) + Cover(es[1..])[x]
  {
    RunCount(es[0].lno, es[0].s_lno, es[0].num_lines, x);
  }

  /** Entries with lines, none of which is covered twice, are laid out once they are in order. */
  lemma {:induction false} SortedLaid(es: seq<Entry>)
    requires ByLine(es) && (forall e :: e in es ==> 0 < e.num_lines) && forall x :: Cover(es)[x] <= 1
    ensures Laid(es)
  {
    hide Sum;
    if |es| >= 2 {
      var a, b := es[0], es[1];
      assert b in es[1..] && a in es && b in es && es[1..][0] == b;
      forall x ensures Cover(es[1..])[x] <= 1 { CoverHead(es, x); }
      SortedLaid(es[1..]);
      if b.lno < a.lno + a.num_lines {
        CoverHead(es, b.lno);
        CoverHead(es[1..], b.lno);
      }
    }
  }

  // ---------------------------------------------------------------------------------------------
  // blame_coalesce

  predicate Joins(a: Entry, b: Entry) { a.suspect == b.suspect && a.s_lno + a.num_lines == b.s_lno }

  function Join(a: Entry, b: Entry): Entry { a.(num_lines := a.num_lines + b.num_lines, score := 0) }

  function Coalesce(es: seq<Entry>): seq<Entry>
    decreases |es|
  {
    if |es| < 2 then es
    else if Joins(es[0], es[1]) then Coalesce([Join(es[0], es[1])] + es[2..])
    else [es[0]] + Coalesce(es[1..])
  }

  /** blame_coalesce: neighbours that are contiguous in the same origin become one entry. */
  method BlameCoalesce(sb: Scoreboard)
    requires forall e :: e in sb.ent ==> e.suspect < |sb.refcnt|
    modifies sb`ent, sb`refcnt
    ensures sb.ent == Coalesce(old(sb.ent))
    ensures |sb.refcnt| == old(|sb.refcnt|)
    ensures forall o: nat :: o < |sb.refcnt| ==>
      sb.refcnt[o] - Naming(sb.ent, o) == old(sb.refcnt)[o] - Naming(old(sb.ent), o)
  {
    hide Coalesce, Naming;
    var done: seq<Entry>, rest := [], sb.ent;
    assert done + rest == sb.ent;
    CoalesceStep(rest);
    while |rest| >= 2
      modifies sb`refcnt
      invariant done + Coalesce(rest) == Coalesce(sb.ent)
      invariant |sb.refcnt| == old(|sb.refcnt|) && forall e :: e in rest ==> e.suspect < |sb.refcnt|
      invariant forall o: nat :: o < |sb.refcnt| ==>
        sb.refcnt[o] - Naming(done + rest, o) == old(sb.refcnt)[o] - Naming(sb.ent, o)
      decreases |rest|
    {
      var ent, next := rest[0], rest[1];
      CoalesceStep(rest);
      assert rest == [ent] + ([next] + rest[2..]);
      if Joins(ent, next) {
        JoinNaming(done, ent, next, rest[2..]);
        sb.DecRef(next.suspect);
        rest := [Join(ent, next)] + rest[2..];
      } else {
        assert done + rest == (done + [ent]) + rest[1..];
        done, rest := done + [ent], rest[1..];
      }
    }
    CoalesceStep(rest);
    sb.ent := done + rest;
  }

  lemma CoalesceStep(es: seq<Entry>)
    ensures |es| < 2 ==> Coalesce(es) == es
    ensures |es| >= 2 && Joins(es[0], es[1]) ==> Coalesce(es) == Coalesce([Join(es[0], es[1])] + es[2..])
    ensures |es| >= 2 && !Joins(es[0], es[1]) ==> Coalesce(es) == [es[0]] + Coalesce(es[1..])
  {
  }

  /** No two neighbours of the output are contiguous in one origin. */
  lemma {:induction false} CoalesceMaximal(es: seq<Entry>)
    ensures var r := Coalesce(es);
      && (forall i :: 0 <= i < |r| - 1 ==> !Joins(r[i], r[i + 1]))
      && (es != [] ==> r != [] && r[0].suspect == es[0].suspect && r[0].s_lno == es[0].s_lno && r[0].lno == es[0].lno)
    decreases |es|
  {
    if |es| >= 2 {
      if Joins(es[0], es[1]) { CoalesceMaximal([Join(es[0], es[1])] + es[2..]); } else { CoalesceMaximal(es[1..]); }
    }
  }

  lemma JoinNaming(done: seq<Entry>, a: Entry, b: Entry, rest: seq<Entry>)
    requires Joins(a, b)
    ensures forall o: nat ::
      Naming(done + ([a] + ([b] + rest)), o) == Naming(done + ([Join(a, b)] + rest), o) + One(b, o)
  {
    NamingConcatAll(done, [a] + ([b] + rest));
    NamingConcatAll(done, [Join(a, b)] + rest);
    NamingCons(a, [b] + rest);
    NamingCons(b, rest);
    NamingCons(Join(a, b), rest);
  }

  /** Neighbours that join have no final line between them. */
  ghost predicate NoGaps(es: seq<Entry>)
  {
    |es| < 2 || ((Joins(es[0], es[1]) ==> es[0].lno + es[0].num_lines == es[1].lno) && NoGaps(es[1..]))
  }

  lemma PositionsCons(e: Entry, es: seq<Entry>)
    ensures Positions([e] + es) == Run(e.lno, e.s_lno, e.num_lines, PosLine(e.suspect)) + Positions(es)
  {
    assert ([e] + es)[1..] == es;
  }

  lemma JoinPositions(a: Entry, b: Entry, rest: seq<Entry>)
    requires Joins(a, b) && a.lno + a.num_lines == b.lno
    ensures Positions([Join(a, b)] + rest) == Positions([a] + ([b] + rest))
  {
    hide Positions, Run, PosLine;
    var f := PosLine(a.suspect);
    RunSplit(a.lno, a.s_lno, a.num_lines + b.num_lines, a.num_lines, f);
    PositionsCons(Join(a, b), rest);
    PositionsCons(a, [b] + rest);
    PositionsCons(b, rest);
    TripleSum(Run(a.lno, a.s_lno, a.num_lines, f), Run(b.lno, b.s_lno, b.num_lines, f), Positions(rest));
  }

  lemma JoinLaid(es: seq<Entry>)
    requires |es| >= 2 && Joins(es[0], es[1]) && Laid(es) && es[0].lno + es[0].num_lines == es[1].lno
    ensures var j := [Join(es[0], es[1])] + es[2..]; Laid(j) && (NoGaps(j) <==> NoGaps(es))
  {
    var j := [Join(es[0], es[1])] + es[2..];
    assert j[1..] == es[2..] && es[1..][1..] == es[2..];
  }

  lemma {:induction false} RunAt(lno: int, s: int, n: nat, o: nat, v: Verdict)
    ensures v in Run(lno, s, n, PosLine(o)) <==> lno <= v.0 < lno + n && v.1 == (o, s + (v.0 - lno))
    decreases n
  {
    if n > 0 { RunAt(lno + 1, s + 1, n - 1, o, v); }
  }

  /** The positions of a list are those of the lines of its entries. */
  lemma {:induction false} PositionIn(es: seq<Entry>, v: Verdict)
    ensures v in Positions(es) <==> exists e :: e in es && e.suspect == v.1.0 && Points(e, v.0, v.1.1)
  {
    hide Run;
    if es != [] {
      assert es == [es[0]] + es[1..];
      RunAt(es[0].lno, es[0].s_lno, es[0].num_lines, es[0].suspect, v);
      PositionIn(es[1..], v);
      if exists e :: e in es && e.suspect == v.1.0 && Points(e, v.0, v.1.1) {
        var e :| e in es && e.suspect == v.1.0 && Points(e, v.0, v.1.1);
        assert e == es[0] || e in es[1..];
      }
    }
  }

  /** All final lines of a laid list come at or after its first entry, and none in the gap after it. */
  lemma {:induction false} LaidFrom(es: seq<Entry>, e: Entry)
    requires Laid(es) && e in es
    ensures es[0].lno <= e.lno && (e == es[0] || (|es| >= 2 && es[1].lno <= e.lno))
  {
    if e != es[0] { LaidFrom(es[1..], e); }
  }

  /** Coalescing never drops what its first entry covers. */
  lemma {:induction false} HeadStays(es: seq<Entry>, x: int)
    requires es != [] && es[0].lno <= x < es[0].lno + es[0].num_lines
    ensures (x, (es[0].suspect, es[0].s_lno + (x - es[0].lno))) in Positions(Coalesce(es))
    decreases |es|
  {
    var v: Verdict := (x, (es[0].suspect, es[0].s_lno + (x - es[0].lno)));
    if |es| >= 2 && Joins(es[0], es[1]) {
      HeadStays([Join(es[0], es[1])] + es[2..], x);
    } else {
      RunAt(es[0].lno, es[0].s_lno, es[0].num_lines, es[0].suspect, v);
      if |es| >= 2 { assert Coalesce(es)[0] == es[0]; }
    }
  }

  /**
   On a list in final order, blame_coalesce says of every line what the list said if and only if no two
   neighbours that are contiguous in their origin have a gap between them in the final image.
   */
  lemma {:induction false} CoalesceExactly(es: seq<Entry>)
    requires Laid(es)
    ensures Positions(Coalesce(es)) == Positions(es) <==> NoGaps(es)
    decreases |es|
  {
    hide Run;
    if |es| >= 2 {
      assert es == [es[0]] + ([es[1]] + es[2..]);
      if !Joins(es[0], es[1]) {
        CoalesceExactly(es[1..]);
        PositionsCons(es[0], Coalesce(es[1..]));
        SameTail(Run(es[0].lno, es[0].s_lno, es[0].num_lines, PosLine(es[0].suspect)), Positions(Coalesce(es[1..])),
                 Positions(es[1..]));
      } else if es[0].lno + es[0].num_lines == es[1].lno {
        JoinLaid(es);
        JoinPositions(es[0], es[1], es[2..]);
        CoalesceExactly([Join(es[0], es[1])] + es[2..]);
      } else {
        GapClaimed(es);
      }
    }
  }

  /** A gap between joined neighbours is claimed for their origin. */
  lemma GapClaimed(es: seq<Entry>)
    requires Laid(es) && |es| >= 2 && Joins(es[0], es[1]) && es[0].lno + es[0].num_lines < es[1].lno
    ensures Positions(Coalesce(es)) != Positions(es)
  {
    hide Run, Positions;
    var x := es[0].lno + es[0].num_lines;
    CoalesceStep(es);
    HeadStays([Join(es[0], es[1])] + es[2..], x);
    var v: Verdict := (x, (es[0].suspect, es[0].s_lno + (x - es[0].lno)));
    PositionIn(es, v);
    if v in Positions(es) {
      var e :| e in es && e.suspect == v.1.0 && Points(e, v.0, v.1.1);
      LaidFrom(es, e);
      NothingBetween(es, e, x);
    }
  }

  lemma {:induction false} NothingBetween(es: seq<Entry>, e: Entry, x: int)
    requires Laid(es) && e in es && |es| >= 2 && es[0].lno + es[0].num_lines <= x < es[1].lno
    ensures !(e.lno <= x < e.lno + e.num_lines)
  {
    LaidFrom(es, e);
  }

  lemma SameTail<T>(a: multiset<T>, b: multiset<T>, c: multiset<T>)
    ensures a + b == a + c <==> b == c
  {
    assert b == (a + b) - a && c == (a + c) - a;
  }

  // ---------------------------------------------------------------------------------------------
  // Whole commands

  /** Where every line from the first to hi is covered, there are no gaps at all. */
  lemma {:induction false} FullNoGaps(es: seq<Entry>, hi: int)
    requires Laid(es) && (forall e :: e in es ==> 0 < e.num_lines && e.lno + e.num_lines <= hi)
    requires forall x :: es != [] && es[0].lno <= x < hi ==> x in Cover(es)
    ensures NoGaps(es)
  {
    hide Sum;
    if |es| >= 2 {
      var a, b := es[0], es[1];
      assert es == [a] + es[1..] && b in es;
      forall x | b.lno <= x < hi ensures x in Cover(es[1..]) {
        assert x in Cover(es);
        CoverHead(es, x);
      }
      FullNoGaps(es[1..], hi);
      var x := a.lno + a.num_lines;
      if x < b.lno {
        assert x in Cover(es);
        var e, y, t := InSum(es, FinalOf(), x);
        NothingBetween(es, e, x);
      }
    }
  }

  /** The entries of a run for one range, in order, have no gaps. */
  lemma {:induction false} OneRange(h: History, ent: seq<Entry>, ranges: seq<Range>)
    requires AllGood(h, ent) && ValidRanges(ranges, 0, |h.image|)
    requires forall x :: Cover(ent)[x] == if InRanges(ranges, x) then 1 else 0
    ensures Laid(SortFinal(ent)) && (|ranges| <= 1 ==> NoGaps(SortFinal(ent)))
  {
    hide Run, Good, Laid, NoGaps, SortFinal, Sum;
    var es := SortFinal(ent);
    SortByLine(ent);
    BagSum(es, ent, FinalOf());
    assert Cover(es) == Cover(ent);
    forall x ensures Cover(es)[x] <= 1 {}
    forall e | e in es ensures e in ent && 0 < e.num_lines {
      assert e in multiset(es);
      GoodBounds(h, e);
    }
    SortedLaid(es);
    if |ranges| <= 1 {
      forall e | e in es ensures ranges != [] && ranges[0].start <= e.lno && e.lno + e.num_lines <= ranges[0].end {
        InOnly(es, ranges, e, e.lno);
        InOnly(es, ranges, e, e.lno + e.num_lines - 1);
      }
      if es != [] {
        assert es[0] in es;
        forall x | es[0].lno <= x < ranges[0].end ensures x in Cover(es) { assert InRanges(ranges, x); }
        FullNoGaps(es, ranges[0].end);
      } else {
        FullNoGaps(es, 0);
      }
    }
  }

  lemma InOnly(es: seq<Entry>, ranges: seq<Range>, e: Entry, x: int)
    requires e in es && e.lno <= x < e.lno + e.num_lines && |ranges| <= 1
    requires forall x :: Cover(es)[x] == if InRanges(ranges, x) then 1 else 0
    ensures ranges != [] && ranges[0].start <= x < ranges[0].end
  {
    hide Sum;
    HasCover(es, e, x, e.s_lno + (x - e.lno));
    var r :| r in ranges && r.start <= x < r.end;
  }

  lemma SamePositions(a: seq<Entry>, b: seq<Entry>)
    requires multiset(a) == multiset(b)
    ensures Positions(a) == Positions(b)
  {
    BagPositions(a, b);
  }

  lemma {:induction false} BagPositions(a: seq<Entry>, b: seq<Entry>)
    requires multiset(a) == multiset(b)
    ensures Positions(a) == Positions(b)
  {
    hide Run;
    if a == [] {
      assert |b| == |multiset(b)| == |multiset(a)|;
    } else {
      var i := BagHead(a, b);
      BagPositions(a[1..], b[..i] + b[i + 1..]);
      PositionsConcat(b[..i], [b[i]] + b[i + 1..]);
      PositionsConcat(b[..i], b[i + 1..]);
      PositionsCons(b[i], b[i + 1..]);
    }
  }

  /** Lists with the same positions say the same of where the requested lines end. */
  lemma EndsCarry(h: History, r: Rules, op: Options, ranges: seq<Range>, o: nat, a: seq<Entry>, b: seq<Entry>)
    requires h.Valid() && o < |h.commit| && EachAtEnd(h, r, op, ranges, o, a) && Positions(a) == Positions(b)
    ensures EachAtEnd(h, r, op, ranges, o, b)
  {
    hide CanEnd, Positions, InRanges, Points;
    forall e, x, s | e in b && Points(e, x, s)
      ensures InRanges(ranges, x) && CanEnd(h, r, op, x, (o, x), (e.suspect, s)) {
      var v: Verdict := (x, (e.suspect, s));
      PositionIn(b, v);
      PositionIn(a, v);
      var f :| f in a && f.suspect == e.suspect && Points(f, x, s);
    }
  }

  /**
   The command: a run over the requested ranges, whose entries, run, are then sorted and joined.  The output
   says of every line what the run found if and only if no two of its neighbours that join have a gap between
   them, which is always so for one range.
   */
  method BlameFile(sb: Scoreboard, o: nat, ranges: seq<Range>, move: bool, copy: bool) returns (ghost run: seq<Entry>)
    requires Ready(sb, None) && o < |sb.suspects| && sb.h.file[o] == sb.h.image
    requires forall p :: 0 <= p < |sb.suspects| ==> sb.suspects[p] == []
    requires sb.ent == [] && ValidRanges(ranges, 0, |sb.h.image|)
    modifies sb`suspects, sb`queue, sb`refcnt, sb`previous, sb`num_commits, sb`ent, sb`guilty, sb`uninteresting
    ensures sb.Shape() && AllGood(sb.h, run) && forall x :: Cover(run)[x] == if InRanges(ranges, x) then 1 else 0
    ensures !move && !copy && old(FixedBehind(sb, sb.h.commit[o])) ==>
      EachBlamed(sb.h, old(RulesOf(sb)), ranges, o, Positions(run))
    ensures old(FixedBehind(sb, sb.h.commit[o])) ==>
      AllExhausted(sb.h, old(RulesOf(sb)), OptionsOf(sb, move, copy), run)
    ensures sb.ent == Coalesce(SortFinal(run))
    ensures Positions(sb.ent) == Positions(run) <==> NoGaps(SortFinal(run))
    ensures |ranges| <= 1 ==> Positions(sb.ent) == Positions(run)
    ensures old(FixedBehind(sb, sb.h.commit[o])) && Positions(sb.ent) == Positions(run) ==>
      EachAtEnd(sb.h, old(RulesOf(sb)), OptionsOf(sb, move, copy), ranges, o, sb.ent)
    ensures |sb.refcnt| == old(|sb.refcnt|)
    ensures forall p: nat :: p < |sb.refcnt| ==>
      sb.refcnt[p] - Naming(sb.ent, p) - CountOf(sb.previous, p) == old(sb.refcnt)[p] - CountOf(old(sb.previous), p)
  {
    hide Naming, Sum, Good, CountOf, Positions, FixedBehind, EachBlamed, RulesOf, EachAtEnd, NoGaps, SortFinal,
      Coalesce, Laid, ValidRanges, InRanges, AllExhausted;
    ghost var rules, fixed := RulesOf(sb), FixedBehind(sb, sb.h.commit[o]);
    BlameRanges(sb, o, ranges, move, copy);
    run := sb.ent;
    OneRange(sb.h, run, ranges);
    BlameSortFinal(sb);
    SortByLine(run);
    SamePositions(sb.ent, run);
    BagCounts(sb.ent, run);
    CoalesceExactly(sb.ent);
    SuspectsBounded(sb, run, sb.ent);
    BlameCoalesce(sb);
    if fixed && Positions(sb.ent) == Positions(run) {
      EndsCarry(sb.h, rules, OptionsOf(sb, move, copy), ranges, o, run, sb.ent);
    }
  }

  lemma SuspectsBounded(sb: Scoreboard, a: seq<Entry>, b: seq<Entry>)
    requires sb.Shape() && AllGood(sb.h, a) && multiset(a) == multiset(b)
    ensures forall e :: e in b ==> e.suspect < |sb.refcnt|
  {
    forall e | e in b ensures e.suspect < |sb.refcnt| {
      assert e in multiset(b);
      assert Good(sb.h, e);
    }
  }

  // ---------------------------------------------------------------------------------------------
  // Coalescing across a gap

  /** A root commit with lines a and c, and its child, which adds line b between them. */
  ghost function GapHistory(): History
  {
    History(
      parents := [[], [0]], rank := [0, 1], date := [0, 1],
      commit := [0, 1], file := [["a", "c"], ["a", "b", "c"]], chain := [[0], [1]], image := ["a", "b", "c"],
      diff := (a: File, b: File) => GapDiff(a, b),
      find := (pass: nat, p: nat, o: nat) => if p == 0 then Some(0) else None,
      copies := (p: nat, o: nat) => [],
      parses := (c: nat) => true)
  }

  ghost function GapDiff(a: File, b: File): seq<Hunk>
  {
    if a == ["a", "c"] && b == ["a", "b", "c"] then [Hunk(1, 0, 1, 1)] else [Hunk(0, |a|, 0, |b|)]
  }

  const GAP_RANGES := [Range(0, 1), Range(2, 3)]

  lemma GapValid()
    ensures GapHistory().Valid()
  {
    forall a: File, b: File ensures ValidHunks(a, b, GapDiff(a, b), 0, 0) {
      if a == ["a", "c"] && b == ["a", "b", "c"] {
        assert a[1..] == ["c"] == b[2..] && a[0..1] == ["a"] == b[0..1];
      } else {
        assert a[|a|..] == [] == b[|b|..];
      }
    }
  }

  /** Lines 0 and 2 of the child are the lines of the root. */
  lemma GapBlamed(r: Rules, x: int)
    requires GapHistory().Valid() && (x == 0 || x == 2) && !r.stop(1)
    ensures Blamed(GapHistory(), r, 1, x) == (0, x / 2)
  {
    var h := GapHistory();
    var none: seq<Option<nat>> := seq(1, _ => None);
    assert none[0 := Some(0)] == [Some(0)] && none == [None];
    var hs := [Hunk(1, 0, 1, 1)];
    assert h.diff(h.file[0], h.file[1]) == hs && hs[1..] == [];
    assert PlanOf(h, r.noWhole, 1) == Goats([Some(0)]) by { GapPlan(r.noWhole); }
    assert ParentLine(hs, 0, 0, x) == Some(x / 2);
    assert Blamed(h, r, 0, x / 2) == (0, x / 2);
    assert BlamedBy(h, r, 1, [Some(0)], 0, x) == (0, x / 2);
  }

  lemma GapPlan(noWhole: bool)
    requires GapHistory().Valid()
    ensures PlanOf(GapHistory(), noWhole, 1) == Goats([Some(0)])
  {
    var h := GapHistory();
    var none: seq<Option<nat>> := seq(1, _ => None);
    assert h.parents[h.commit[1]] == [0];
    var passes := if noWhole then 1 else 2;
    assert none[0 := Some(0)] == [Some(0)];
    PlanStep(h, 1, passes, 0, 0, none);
    PlanEnds(h, 1, passes, 0, 0, [Some(0)]);
    PlanEnds(h, 1, passes, 1, 0, [Some(0)]);
    PlanEnds(h, 1, passes, 2, 0, [Some(0)]);
    if !noWhole { PlanStep(h, 1, passes, 1, 0, [Some(0)]); }
  }

  /** Lines 0 and 2 are all there is, each found in the root. */
  ghost predicate GapPositions(p: multiset<Verdict>)
  {
    forall v :: v in p <==> v == (0, (0, 0)) || v == (2, (0, 1))
  }

  lemma GapVerdicts(r: Rules, p: multiset<Verdict>)
    requires GapHistory().Valid() && !r.stop(1) && EachBlamed(GapHistory(), r, GAP_RANGES, 1, p)
    ensures GapPositions(p)
  {
    hide Blamed, InRanges;
    GapBlamed(r, 0);
    GapBlamed(r, 2);
    forall v: Verdict ensures v in p <==> v == (0, (0, 0)) || v == (2, (0, 1)) {
      GapRanges(v.0);
      assert p[v] == if InRanges(GAP_RANGES, v.0) && v.1 == Blamed(GapHistory(), r, 1, v.0) then 1 else 0;
    }
  }

  lemma GapEntry(es: seq<Entry>, e: Entry)
    requires GapPositions(Positions(es)) && e in es && e.num_lines > 0
    ensures e.(score := 0) == Entry(0, 1, 0, 0, 0) || e.(score := 0) == Entry(2, 1, 0, 1, 0)
  {
    hide Positions;
    var v: Verdict, w: Verdict := (e.lno, (e.suspect, e.s_lno)), (e.lno + 1, (e.suspect, e.s_lno + 1));
    PositionIn(es, v);
    PositionIn(es, w);
    assert Points(e, e.lno, e.s_lno);
    assert v in Positions(es);
    assert e.num_lines > 1 ==> Points(e, e.lno + 1, e.s_lno + 1);
  }

  /** The entries that a run over lines 0 and 2 ends with, in order. */
  lemma GapEntries(es: seq<Entry>)
    requires GapPositions(Positions(es)) && Laid(es) && forall e :: e in es ==> e.num_lines > 0
    ensures |es| == 2 && es[0].(score := 0) == Entry(0, 1, 0, 0, 0) && es[1].(score := 0) == Entry(2, 1, 0, 1, 0)
  {
    hide Laid, Positions;
    forall e | e in es ensures e.(score := 0) == Entry(0, 1, 0, 0, 0) || e.(score := 0) == Entry(2, 1, 0, 1, 0) {
      GapEntry(es, e);
    }
    var v: Verdict, w: Verdict := (0, (0, 0)), (2, (0, 1));
    PositionIn(es, v);
    PositionIn(es, w);
    assert v in Positions(es) && w in Positions(es);
    var a :| a in es && a.suspect == 0 && Points(a, 0, 0);
    var b :| b in es && b.suspect == 0 && Points(b, 2, 1);
    TwoLaid(es, a, b);
    assert es[0] in es && es[1] in es;
  }

  lemma GapRanges(x: int)
    ensures InRanges(GAP_RANGES, x) <==> x == 0 || x == 2
  {
    assert Range(0, 1) in GAP_RANGES && Range(2, 3) in GAP_RANGES;
  }

  lemma TwoLaid(es: seq<Entry>, a: Entry, b: Entry)
    requires Laid(es) && a in es && b in es && a.lno == 0 && b.lno == 2
    requires forall e :: e in es ==> e.num_lines == 1 && (e.lno == 0 || e.lno == 2)
    ensures |es| == 2 && es[0].lno == 0 && es[1].lno == 2
  {
    assert es[0] in es && |es| >= 2;
    LaidFrom(es, a);
    assert es[1] in es;
  }

  /**
   Blaming lines 0 and 2 of the child, in two ranges: the run finds both in the root, where they are
   neighbours, and the output claims line 1, too, for the root, which has no such line.
   */
  method CoalesceGap(sb: Scoreboard)
    requires Ready(sb, None) && sb.h == GapHistory() && sb.ent == []
    requires forall p :: 0 <= p < |sb.suspects| ==> sb.suspects[p] == []
    requires sb.uninteresting == {} && !sb.too_old(0) && !sb.too_old(1) && sb.ancestors(0) == {}
    modifies sb`suspects, sb`queue, sb`refcnt, sb`previous, sb`num_commits, sb`ent, sb`guilty, sb`uninteresting
    ensures sb.ent == [Entry(0, 2, 0, 0, 0)] && !AllGood(sb.h, sb.ent)
  {
    GapValid();
    ghost var rules := RulesOf(sb);
    assert FixedOn(sb, rules, {0, 1}) by { GapFixed(sb); }
    assert FixedBehind(sb, sb.h.commit[1]);
    ghost var run := BlameFile(sb, 1, GAP_RANGES, false, false);
    OneRange(sb.h, run, GAP_RANGES);
    GapVerdicts(rules, Positions(run));
    SortByLine(run);
    SamePositions(SortFinal(run), run);
    HaveLines(sb.h, run, SortFinal(run));
    GapEntries(SortFinal(run));
    GapJoined(SortFinal(run));
  }

  lemma HaveLines(h: History, a: seq<Entry>, b: seq<Entry>)
    requires AllGood(h, a) && multiset(a) == multiset(b)
    ensures forall e :: e in b ==> e.num_lines > 0
  {
    forall e | e in b ensures e.num_lines > 0 { assert e in multiset(b); GoodBounds(h, e); }
  }

  lemma GapFixed(sb: Scoreboard)
    requires sb.h == GapHistory() && sb.uninteresting == {} && !sb.too_old(0) && !sb.too_old(1) && sb.ancestors(0) == {}
    ensures FixedOn(sb, RulesOf(sb), {0, 1})
  {
  }

  lemma GapJoined(es: seq<Entry>)
    requires |es| == 2 && es[0].(score := 0) == Entry(0, 1, 0, 0, 0) && es[1].(score := 0) == Entry(2, 1, 0, 1, 0)
    ensures Coalesce(es) == [Entry(0, 2, 0, 0, 0)] && !AllGood(GapHistory(), Coalesce(es))
  {
    CoalesceStep(es);
    assert es[2..] == [];
    var j := Entry(0, 2, 0, 0, 0);
    assert [j] + [] == [j];
    CoalesceStep([j]);
    var h := GapHistory();
    assert h.file[0][0..2][1] == "c" && h.image[0..2][1] == "b";
    assert j in Coalesce(es);
  }
}
