/**
 pass_blame_to_parent: what the calls of blame_chunk for all hunks of a diff do together.
 */
module BlameDiff {
  import opened BlameEntries
  import opened BlameHistory
  import opened BlameCut

  /** What goes to the parent, hunk by hunk, from (pa, pb) on. */
  ghost function SentBy(es: seq<Entry>, hs: seq<Hunk>, pa: int, pb: int, parent: nat): seq<Entry>
    decreases hs
  {
    if hs == [] then HandAll(Below(es, INT_MAX), pa - pb, parent)
    else
      HandAll(Below(es, hs[0].start_b), pa - pb, parent)
      + SentBy(Above(Above(es, hs[0].start_b), hs[0].start_b + hs[0].count_b), hs[1..],
               hs[0].start_a + hs[0].count_a, hs[0].start_b + hs[0].count_b, parent)
  }

  /** What the target keeps. */
  ghost function KeptBy(es: seq<Entry>, hs: seq<Hunk>): seq<Entry>
    decreases hs
  {
    if hs == [] then []
    else
      Below(Above(es, hs[0].start_b), hs[0].start_b + hs[0].count_b)
      + KeptBy(Above(Above(es, hs[0].start_b), hs[0].start_b + hs[0].count_b), hs[1..])
  }

  /** A line outside all hunks, as (final line, parent line). */
  ghost function SentLine(hs: seq<Hunk>, pa: int, pb: int): LineFn<(int, int)>
  {
    (x: int, s: int) => var t := ParentLine(hs, pa, pb, s); if t.Some? then multiset{(x, t.value)} else multiset{}
  }

  /** A line inside a hunk, as (final line, target line). */
  ghost function KeptLine(hs: seq<Hunk>, pa: int, pb: int): LineFn<(int, int)>
  {
    (x: int, s: int) => if ParentLine(hs, pa, pb, s).Some? then multiset{} else multiset{(x, s)}
  }

  ghost function NoneOf<T>(): LineFn<T> { (x: int, s: int) => multiset{} }

  lemma {:induction false} SumNone<T>(es: seq<Entry>)
    ensures Sum(es, NoneOf<T>()) == multiset{}
  {
    if es != [] {
      RunNone<T>(es[0].lno, es[0].s_lno, es[0].num_lines);
      SumNone<T>(es[1..]);
    }
  }

  lemma {:induction false} RunNone<T>(lno: int, s: int, n: nat)
    ensures Run(lno, s, n, NoneOf<T>()) == multiset{}
    decreases n
  {
    if n > 0 { RunNone<T>(lno + 1, s + 1, n - 1); }
  }

  /** The two cuts of one hunk, and where their parts lie. */
  lemma Zones(es: seq<Entry>, t: int, u: int, lo: int, hi: int) returns (low: seq<Entry>, mid: seq<Entry>,
              high: seq<Entry>)
    requires Sorted(es) && LinesIn(es, lo, hi) && lo <= t <= u <= hi
    ensures low == Below(es, t) && mid == Below(Above(es, t), u) && high == Above(Above(es, t), u)
    ensures Sorted(low) && LinesIn(low, lo, t) && Sorted(mid) && LinesIn(mid, t, u) && Sorted(high)
    ensures LinesIn(high, u, hi)
  {
    hide Below, Above;
    low, mid, high := Below(es, t), Below(Above(es, t), u), Above(Above(es, t), u);
    BelowSorted(es, t, lo, hi);
    AboveSorted(es, t, hi);
    BelowSorted(Above(es, t), u, t, hi);
    AboveSorted(Above(es, t), u, hi);
  }

  lemma ThreeZones<T>(es: seq<Entry>, t: int, u: int, f: LineFn<T>)
    ensures Sum(es, f) == Sum(Below(es, t), f) + Sum(Below(Above(es, t), u), f) + Sum(Above(Above(es, t), u), f)
  {
    CutSum(es, t, f);
    CutSum(Above(es, t), u, f);
  }

  /** Nothing starts at or ends after t: cutting at t changes nothing. */
  lemma {:induction false} BelowAll(es: seq<Entry>, t: int)
    requires forall e :: e in es ==> 0 < e.num_lines && e.s_lno + e.num_lines <= t
    ensures Below(es, t) == es && Above(es, t) == []
  {
    CutStep(es, t);
    if es != [] { BelowAll(es[1..], t); }
  }

  lemma HandCover(es: seq<Entry>, lo: int, hi: int, offset: int, parent: nat)
    requires LinesIn(es, lo, hi)
    ensures Cover(HandAll(es, offset, parent)) == Cover(es)
  {
    HandSum(es, lo, hi, offset, parent, FinalOf(), FinalOf());
  }

  /**
   The diff of one parent splits what is said of the lines: g of the parent's line where there is one, k of
   the target's line where there is none.
   */
  lemma {:induction false} DiffSum<T>(a: File, b: File, es: seq<Entry>, hs: seq<Hunk>, pa: nat, pb: nat, parent: nat,
                                      f: LineFn<T>, g: LineFn<T>, k: LineFn<T>)
    requires ValidHunks(a, b, hs, pa, pb) && Sorted(es) && LinesIn(es, pb, |b|) && |b| <= INT_MAX
    requires forall x, s :: pb <= s < |b| ==> f(x, s) == OneOrOther(g, k, ParentLine(hs, pa, pb, s), x, s)
    ensures Sum(es, f) == Sum(SentBy(es, hs, pa, pb, parent), g) + Sum(KeptBy(es, hs), k)
    decreases hs
  {
    hide Sum, Run, HandAll, Below, Above;
    if hs == [] {
      SumNil(k);
      BelowAll(es, INT_MAX);
      forall x: int, s: int | pb <= s < |b| ensures f(x, s) == g(x, s + (pa - pb)) {
        assert ParentLine(hs, pa, pb, s) == Some(s + (pa - pb));
      }
      HandSum(es, pb, |b|, pa - pb, parent, f, g);
    } else {
      var t, u, pa' := hs[0].start_b, hs[0].start_b + hs[0].count_b, hs[0].start_a + hs[0].count_a;
      var low, mid, high := Zones(es, t, u, pb, |b|);
      ThreeZones(es, t, u, f);
      forall x: int, s: int | pb <= s < t ensures f(x, s) == g(x, s + (pa - pb)) {
        assert ParentLine(hs, pa, pb, s) == Some(s + (pa - pb));
      }
      HandSum(low, pb, t, pa - pb, parent, f, g);
      forall x: int, s: int | t <= s < u ensures f(x, s) == k(x, s) {
        assert ParentLine(hs, pa, pb, s) == None;
      }
      LinesCong(mid, t, u, f, k);
      forall x: int, s: int | u <= s < |b| ensures f(x, s) == OneOrOther(g, k, ParentLine(hs[1..], pa', u, s), x, s) {
        assert ParentLine(hs, pa, pb, s) == ParentLine(hs[1..], pa', u, s);
      }
      DiffSum(a, b, high, hs[1..], pa', u, parent, f, g, k);
      SumConcat(HandAll(low, pa - pb, parent), SentBy(high, hs[1..], pa', u, parent), g);
      SumConcat(mid, KeptBy(high, hs[1..]), k);
      FourParts(Sum(HandAll(low, pa - pb, parent), g), Sum(SentBy(high, hs[1..], pa', u, parent), g), Sum(mid, k),
                Sum(KeptBy(high, hs[1..]), k));
    }
  }

  ghost function OneOrOther<T>(g: LineFn<T>, k: LineFn<T>, t: Option<int>, x: int, s: int): multiset<T> {
    if t.Some? then g(x, t.value) else k(x, s)
  }

  lemma FourParts<T>(a: multiset<T>, b: multiset<T>, c: multiset<T>, d: multiset<T>)
    ensures a + c + (b + d) == (a + b) + (c + d)
  {
  }

  /**
   For any sorted suspect list (its entries may overlap) and any valid hunks: the parent gets exactly the
   lines outside all hunks, at the parent line they came from; the target keeps exactly those inside.
   */
  lemma DiffLines(a: File, b: File, es: seq<Entry>, hs: seq<Hunk>, pa: nat, pb: nat, parent: nat)
    requires ValidHunks(a, b, hs, pa, pb) && Sorted(es) && LinesIn(es, pb, |b|) && |b| <= INT_MAX
    ensures Pairs(SentBy(es, hs, pa, pb, parent)) == Sum(es, SentLine(hs, pa, pb))
    ensures Pairs(KeptBy(es, hs)) == Sum(es, KeptLine(hs, pa, pb))
  {
    hide Sum, ParentLine, SentBy, KeptBy;
    var none: LineFn<(int, int)> := NoneOf();
    DiffSum(a, b, es, hs, pa, pb, parent, SentLine(hs, pa, pb), PairOf(), none);
    DiffSum(a, b, es, hs, pa, pb, parent, KeptLine(hs, pa, pb), none, PairOf());
    SumNone<(int, int)>(SentBy(es, hs, pa, pb, parent));
    SumNone<(int, int)>(KeptBy(es, hs));
  }

  /** No final line is lost or duplicated. */
  lemma DiffCover(a: File, b: File, es: seq<Entry>, hs: seq<Hunk>, pa: nat, pb: nat, parent: nat)
    requires ValidHunks(a, b, hs, pa, pb) && Sorted(es) && LinesIn(es, pb, |b|) && |b| <= INT_MAX
    ensures Cover(SentBy(es, hs, pa, pb, parent)) + Cover(KeptBy(es, hs)) == Cover(es)
  {
    hide Sum, ParentLine, SentBy, KeptBy;
    DiffSum(a, b, es, hs, pa, pb, parent, FinalOf(), FinalOf(), FinalOf());
  }

  ghost predicate Suspects(h: History, es: seq<Entry>, o: nat)
  {
    Sorted(es) && AllGood(h, es) && AllNaming(es, o)
  }

  lemma SuspectsConcat(h: History, a: seq<Entry>, b: seq<Entry>, o: nat, m: int)
    requires Suspects(h, a, o) && Suspects(h, b, o) && AllFrom(b, m) && forall e :: e in a ==> e.s_lno <= m
    ensures Suspects(h, a + b, o)
  {
    SortedConcat(a, b, m);
  }

  /** What is handed over before one hunk is a suspect list of the parent. */
  lemma LowList(h: History, es: seq<Entry>, lo: nat, hi: nat, plo: nat, target: nat, parent: nat)
    requires Suspects(h, es, target) && LinesIn(es, lo, hi)
    requires parent < |h.file| && target < |h.file| && lo <= hi <= |h.file[target]|
    requires plo + (hi - lo) <= |h.file[parent]|
    requires h.file[parent][plo..plo + (hi - lo)] == h.file[target][lo..hi]
    ensures var r := HandAll(es, plo - lo, parent); Suspects(h, r, parent) && LinesIn(r, plo, plo + (hi - lo))
  {
    HandSorted(es, plo - lo, parent, lo, hi);
    HandGood(h, es, lo, hi, plo - lo, parent, target);
  }

  /** Both lists that come out are sorted, and their entries point at identical text in their suspect's file. */
  lemma {:induction false} DiffLists(h: History, target: nat, parent: nat, es: seq<Entry>, hs: seq<Hunk>, pa: nat,
                                     pb: nat)
    requires target < |h.file| && parent < |h.file| && |h.file[target]| <= INT_MAX
    requires ValidHunks(h.file[parent], h.file[target], hs, pa, pb)
    requires Suspects(h, es, target) && LinesIn(es, pb, |h.file[target]|)
    ensures var sent := SentBy(es, hs, pa, pb, parent); Suspects(h, sent, parent) && AllFrom(sent, pa)
    ensures var kept := KeptBy(es, hs); Suspects(h, kept, target) && AllFrom(kept, pb)
    decreases hs
  {
    hide HandAll, Below, Above, Sorted, Good;
    var a, b := h.file[parent], h.file[target];
    if hs == [] {
      BelowAll(es, INT_MAX);
      assert |a[pa..]| == |b[pb..]|;
      LowList(h, es, pb, |b|, pa, target, parent);
      NilSuspects(h, target);
    } else {
      var t, u, pa' := hs[0].start_b, hs[0].start_b + hs[0].count_b, hs[0].start_a + hs[0].count_a;
      var low, mid, high := Zones(es, t, u, pb, |b|);
      CutAllGood(h, es, t, target);
      CutAllGood(h, Above(es, t), u, target);
      assert |a[pa..hs[0].start_a]| == |b[pb..t]|;
      LowList(h, low, pb, t, pa, target, parent);
      DiffLists(h, target, parent, high, hs[1..], pa', u);
      SuspectsConcat(h, HandAll(low, pa - pb, parent), SentBy(high, hs[1..], pa', u, parent), parent, pa');
      SuspectsConcat(h, mid, KeptBy(high, hs[1..]), target, u);
    }
  }

  lemma NilSuspects(h: History, o: nat)
    ensures Suspects(h, [], o)
  {
  }

  /** Where the callbacks stand before hunk i. */
  ghost predicate At(a: File, b: File, hs: seq<Hunk>, i: nat, pa: nat, pb: nat, rest: seq<Entry>)
  {
    i <= |hs| && ValidHunks(a, b, hs[i..], pa, pb) && Sorted(rest) && LinesIn(rest, pb, |b|)
  }

  lemma HunkStep(a: File, b: File, hs: seq<Hunk>, i: nat, pa: nat, pb: nat, rest: seq<Entry>, parent: nat)
    requires At(a, b, hs, i, pa, pb, rest) && i < |hs|
    ensures var t, u, pa' := hs[i].start_b, hs[i].start_b + hs[i].count_b, hs[i].start_a + hs[i].count_a;
      && hs[i].start_a - t == pa - pb
      && At(a, b, hs, i + 1, pa', u, Above(Above(rest, t), u))
      && SentBy(rest, hs[i..], pa, pb, parent)
         == HandAll(Below(rest, t), pa - pb, parent) + SentBy(Above(Above(rest, t), u), hs[i + 1..], pa', u, parent)
      && KeptBy(rest, hs[i..]) == Below(Above(rest, t), u) + KeptBy(Above(Above(rest, t), u), hs[i + 1..])
  {
    hide Below, Above, HandAll, Sorted;
    assert hs[i..][0] == hs[i] && hs[i..][1..] == hs[i + 1..];
    assert |a[pa..hs[i].start_a]| == |b[pb..hs[i].start_b]|;
    var low, mid, high := Zones(rest, hs[i].start_b, hs[i].start_b + hs[i].count_b, pb, |b|);
  }

  lemma HunksDone(a: File, b: File, hs: seq<Hunk>, pa: nat, pb: nat, rest: seq<Entry>, parent: nat)
    requires At(a, b, hs, |hs|, pa, pb, rest) && |b| <= INT_MAX
    ensures SentBy(rest, hs[|hs|..], pa, pb, parent) == HandAll(Below(rest, INT_MAX), pa - pb, parent)
    ensures KeptBy(rest, hs[|hs|..]) == [] && Below(Above(rest, INT_MAX), INT_MAX) == []
    ensures Above(Above(rest, INT_MAX), INT_MAX) == []
  {
    BelowAll(rest, INT_MAX);
  }

  /**
   The diff part of pass_blame_to_parent: diff_hunks with blame_chunk_cb, and the last blame_chunk for the
   rest.  Reference counts move exactly with the entries.
   */
  method BlameHunks(sb: Scoreboard, hs: seq<Hunk>, list: seq<Entry>, parent: nat, ghost a: File, ghost b: File)
    returns (newdest: seq<Entry>, kept: seq<Entry>)
    requires parent < |sb.refcnt| && forall x :: x in list ==> x.suspect < |sb.refcnt|
    requires At(a, b, hs, 0, 0, 0, list) && |b| <= INT_MAX
    modifies sb`refcnt
    ensures |sb.refcnt| == old(|sb.refcnt|)
    ensures newdest == SentBy(list, hs, 0, 0, parent) && kept == KeptBy(list, hs)
    ensures forall o: nat :: o < |sb.refcnt| ==>
      sb.refcnt[o] - old(sb.refcnt)[o] == Naming(newdest, o) + Naming(kept, o) - Naming(list, o)
  {
    hide *;
    HeldNil();
    var offset, i, rest := 0, 0, list;
    ghost var pa: nat, pb: nat := 0, 0;
    newdest, kept := [], [];
    assert hs[0..] == hs;
    while i < |hs|
      invariant i <= |hs| && offset == pa - pb
      invariant At(a, b, hs, i, pa, pb, rest)
      invariant |sb.refcnt| == old(|sb.refcnt|) && forall x :: x in rest ==> x.suspect < |sb.refcnt|
      invariant newdest + SentBy(rest, hs[i..], pa, pb, parent) == SentBy(list, hs, 0, 0, parent)
      invariant kept + KeptBy(rest, hs[i..]) == KeptBy(list, hs)
      invariant forall o: nat :: o < |sb.refcnt| ==>
        sb.refcnt[o] - old(sb.refcnt)[o] == Held(newdest, kept, rest, o) - Held([], [], list, o)
    {
      HunkStep(a, b, hs, i, pa, pb, rest, parent);
      assert hs[i].start_a - hs[i].start_b == offset;   // otherwise blame_chunk_cb dies
      newdest, kept, rest := BlameChunk(sb, newdest, kept, rest, hs[i].start_b, hs[i].start_a - hs[i].start_b,
                                        hs[i].start_b + hs[i].count_b, parent);
      pa, pb := hs[i].start_a + hs[i].count_a, hs[i].start_b + hs[i].count_b;
      offset := hs[i].start_a + hs[i].count_a - (hs[i].start_b + hs[i].count_b);
      i := i + 1;
    }
    HunksDone(a, b, hs, pa, pb, rest, parent);
    newdest, kept, rest := BlameChunk(sb, newdest, kept, rest, INT_MAX, offset, INT_MAX, parent);
    HeldOne(newdest, kept);
    kept := kept + rest;
  }

  lemma HeldNil()
    ensures forall o, es :: Held([], [], es, o) == Naming(es, o)
  {
  }

  lemma HeldOne(a: seq<Entry>, b: seq<Entry>)
    ensures forall o :: Held(a, b, [], o) == Naming(a, o) + Naming(b, o)
  {
  }
}
