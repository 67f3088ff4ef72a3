/**
 Finding moved lines: the best match of an entry's lines inside a parent file, splitting the entry around
 it, and setting aside entries too small to bother (split_overlap .. find_move_in_parent in
 git-2.15.0/blame.c).
 */
module BlameMove {
  import opened BlameEntries
  import opened BlameHistory
  import opened BlameCut

  /** The on-stack split[3]; a part whose suspect is NULL is None. */
  datatype Split = Split(pre: Option<Entry>, mid: Option<Entry>, post: Option<Entry>)

  const NO_SPLIT := Split(None, None, None)

  function Opt(p: Option<Entry>): seq<Entry> { if p.None? then [] else [p.value] }

  /** The references the parts of a split hold. */
  ghost function SplitRefs(s: Split, o: nat): nat
  {
    Naming(Opt(s.pre), o) + Naming(Opt(s.mid), o) + Naming(Opt(s.post), o)
  }

  /** A split with a middle part cuts e's final lines into up to three consecutive stretches. */
  ghost predicate Cuts(e: Entry, s: Split, parent: nat)
  {
    if s.mid.None? then s == NO_SPLIT
    else
      var m := s.mid.value;
      && m.suspect == parent && e.lno <= m.lno < m.lno + m.num_lines <= e.lno + e.num_lines
      && s.pre == (if e.lno < m.lno then Some(Entry(e.lno, m.lno - e.lno, e.suspect, e.s_lno, 0)) else None)
      && s.post == (if m.lno + m.num_lines < e.lno + e.num_lines
                    then Some(Entry(m.lno + m.num_lines, e.lno + e.num_lines - (m.lno + m.num_lines), e.suspect,
                                    e.s_lno + (m.lno + m.num_lines - e.lno), 0))
                    else None)
  }

  /** The outer stretches of a split that cuts a good entry are good. */
  lemma CutsGood(h: History, e: Entry, s: Split, parent: nat)
    requires Good(h, e) && Cuts(e, s, parent) && s.mid.Some?
    ensures AllGood(h, Opt(s.pre)) && AllGood(h, Opt(s.post))
  {
    hide Good;
    var m := s.mid.value;
    if s.pre.Some? { StretchOfGood(h, e, 0, m.lno - e.lno); }
    if s.post.Some? { StretchOfGood(h, e, m.lno + m.num_lines - e.lno, e.num_lines); }
  }

  /** Whatever is said of e's lines is said of its three stretches, the middle one with e's line numbers. */
  lemma CutsSum<T>(e: Entry, s: Split, parent: nat, f: LineFn<T>)
    requires Cuts(e, s, parent) && s.mid.Some?
    ensures var m := s.mid.value;
      Sum([e], f)
      == Sum(Opt(s.pre), f) + Run(m.lno, e.s_lno + (m.lno - e.lno), m.num_lines, f) + Sum(Opt(s.post), f)
  {
    hide Sum, Run;
    var m := s.mid.value;
    var k, j, n := m.lno - e.lno, m.lno + m.num_lines - e.lno, e.num_lines;
    RunSplit(e.lno, e.s_lno, n, k, f);
    RunSplit(e.lno + k, e.s_lno + k, n - k, m.num_lines, f);
    OneSum(e, f); OptSum(s.pre, f); OptSum(s.post, f);
    RunNil(e.lno, e.s_lno, f); RunNil(e.lno + j, e.s_lno + j, f);
  }

  /** The stretches together cover exactly e's final lines. */
  lemma CutsCover(e: Entry, s: Split, parent: nat)
    requires Cuts(e, s, parent) && s.mid.Some?
    ensures Cover([e]) == Cover(Opt(s.pre)) + Cover(Opt(s.mid)) + Cover(Opt(s.post))
    ensures Size([e]) == Size(Opt(s.pre)) + Size(Opt(s.mid)) + Size(Opt(s.post))
  {
    hide Sum, Run, FinalOf;
    var m := s.mid.value;
    CutsSum(e, s, parent, FinalOf());
    FinalRun(m.lno, e.s_lno + (m.lno - e.lno), m.s_lno, m.num_lines);
    OptSum(s.mid, FinalOf());
    OneSize(e); OptSize(s.pre); OptSize(s.mid); OptSize(s.post);
  }

  lemma RunNil<T>(lno: int, s: int, f: LineFn<T>)
    ensures Run(lno, s, 0, f) == multiset{}
  {
  }

  lemma OneSum<T>(e: Entry, f: LineFn<T>)
    ensures Sum([e], f) == Run(e.lno, e.s_lno, e.num_lines, f)
  {
    assert [e][1..] == [] && Sum([], f) == multiset{};
  }

  lemma OptSum<T>(p: Option<Entry>, f: LineFn<T>)
    ensures Sum(Opt(p), f) == if p.Some? then Run(p.value.lno, p.value.s_lno, p.value.num_lines, f) else multiset{}
  {
    if p.Some? { OneSum(p.value, f); }
  }

  lemma OneSize(e: Entry)
    ensures Size([e]) == e.num_lines
  {
    assert [e][1..] == [];
  }

  lemma OptSize(p: Option<Entry>)
    ensures Size(Opt(p)) == if p.Some? then p.value.num_lines else 0
  {
    if p.Some? { OneSize(p.value); }
  }

  lemma FinalRun(lno: int, s: int, s': int, n: nat)
    ensures Run(lno, s, n, FinalOf()) == Run(lno, s', n, FinalOf())
  {
    var d, d' := s - lno, s' - lno;
    forall x: int | lno <= x < lno + n ensures AgreeAt(FinalOf(), FinalOf(), x, d, d') {}
    RunCong(lno, d, d', n, FinalOf(), FinalOf());
  }

  method IncSplit(sb: Scoreboard, s: Split)
    requires forall e :: e in Opt(s.pre) + Opt(s.mid) + Opt(s.post) ==> e.suspect < |sb.refcnt|
    modifies sb`refcnt
    ensures |sb.refcnt| == old(|sb.refcnt|)
    ensures forall o: nat :: o < |sb.refcnt| ==> sb.refcnt[o] == old(sb.refcnt)[o] + SplitRefs(s, o)
  {
    hide Naming;
    OptNaming(s.pre); OptNaming(s.mid); OptNaming(s.post);
    if s.pre.Some? { assert s.pre.value in Opt(s.pre); sb.IncRef(s.pre.value.suspect); }
    if s.mid.Some? { assert s.mid.value in Opt(s.mid); sb.IncRef(s.mid.value.suspect); }
    if s.post.Some? { assert s.post.value in Opt(s.post); sb.IncRef(s.post.value.suspect); }
  }

  method DecSplit(sb: Scoreboard, s: Split)
    requires forall e :: e in Opt(s.pre) + Opt(s.mid) + Opt(s.post) ==> e.suspect < |sb.refcnt|
    modifies sb`refcnt
    ensures |sb.refcnt| == old(|sb.refcnt|)
    ensures forall o: nat :: o < |sb.refcnt| ==> sb.refcnt[o] == old(sb.refcnt)[o] - SplitRefs(s, o)
  {
    hide Naming;
    OptNaming(s.pre); OptNaming(s.mid); OptNaming(s.post);
    if s.pre.Some? { assert s.pre.value in Opt(s.pre); sb.DecRef(s.pre.value.suspect); }
    if s.mid.Some? { assert s.mid.value in Opt(s.mid); sb.DecRef(s.mid.value.suspect); }
    if s.post.Some? { assert s.post.value in Opt(s.post); sb.DecRef(s.post.value.suspect); }
  }

  lemma OptNaming(p: Option<Entry>)
    ensures forall o: nat :: Naming(Opt(p), o) == if p.Some? then One(p.value, o) else 0
  {
    if p.Some? { assert [p.value][1..] == []; }
  }

  /** blame_entry_score: the score, cached in the entry. */
  method BlameEntryScore(h: History, e: Entry) returns (score: nat, e': Entry)
    requires e.lno + e.num_lines <= |h.image|
    requires e.score == 0 || e.score == Score(h.image, e.lno, e.num_lines)
    ensures score == Score(h.image, e.lno, e.num_lines) && e' == e.(score := score)
  {
    if e.score != 0 { return e.score, e; }
    score := 1;
    var i := 0;
    while i < e.num_lines
      invariant i <= e.num_lines && score == Score(h.image, e.lno, i)
    {
      score := score + AlnumIn(h.image[e.lno + i]);
      i := i + 1;
    }
    e' := e.(score := score);
  }

  /**
   The parts of e before, in and after lines tlno .. same of its suspect, which are lines plno .. of the parent.
   There is no middle part if it would be empty; the outer ones stay even then.
   */
  function Overlap(e: Entry, tlno: int, plno: int, same: int, parent: nat): Split
    requires e.s_lno <= e.lno + same
  {
    var end := e.s_lno + e.num_lines;
    var first := if e.s_lno < tlno then tlno - e.s_lno else 0;
    var behind := if same < end then same - e.s_lno else e.num_lines;
    Split(
      if e.s_lno < tlno then Some(Entry(e.lno, first, e.suspect, e.s_lno, 0)) else None,
      if first < behind then Some(Entry(e.lno + first, behind - first, parent, e.s_lno + first - tlno + plno, 0))
      else None,
      if same < end then Some(Entry(e.lno + behind, e.num_lines - behind, e.suspect, same, 0)) else None)
  }

  /** Where the lines overlap e, this cuts e, and the middle part has exactly the lines that are in both. */
  lemma OverlapCuts(e: Entry, tlno: int, plno: int, same: int, parent: nat)
    requires e.s_lno <= e.lno + same
    ensures var s := Overlap(e, tlno, plno, same, parent);
      && (s.mid.Some? <==> 0 < e.num_lines && tlno < same && tlno < e.s_lno + e.num_lines && e.s_lno < same)
      && (s.mid.Some? ==> Cuts(e, s, parent))
    ensures var s := Overlap(e, tlno, plno, same, parent);
      s.mid.Some? ==> forall x, t :: Points(s.mid.value, x, t) ==>
        plno <= t < plno + (same - tlno) && Points(e, x, t - plno + tlno)
    ensures var s := Overlap(e, tlno, plno, same, parent);
      forall x, t :: Points(e, x, t) && tlno <= t < same ==> s.mid.Some? && Points(s.mid.value, x, t - tlno + plno)
  {
  }

  /** Final line x of the entry is line t of its suspect. */
  ghost predicate Points(e: Entry, x: int, t: int) { e.lno <= x < e.lno + e.num_lines && t == e.s_lno + (x - e.lno) }

  /** split_overlap */
  method SplitOverlap(sb: Scoreboard, e: Entry, tlno: int, plno: int, same: int, parent: nat) returns (s: Split)
    requires e.suspect < |sb.refcnt| && parent < |sb.refcnt| && e.s_lno <= e.lno + same
    modifies sb`refcnt
    ensures s == Overlap(e, tlno, plno, same, parent)
    ensures |sb.refcnt| == old(|sb.refcnt|)
    ensures forall o: nat :: o < |sb.refcnt| ==> sb.refcnt[o] == old(sb.refcnt)[o] + SplitRefs(s, o)
  {
    hide Naming;
    s := NO_SPLIT;
    var lno1, s_lno1;
    if e.s_lno < tlno {
      sb.IncRef(e.suspect);
      s := s.(pre := Some(Entry(e.lno, tlno - e.s_lno, e.suspect, e.s_lno, 0)));
      lno1, s_lno1 := e.lno + tlno - e.s_lno, plno;
    } else {
      lno1, s_lno1 := e.lno, plno + (e.s_lno - tlno);
    }
    var chunk_end;
    if same < e.s_lno + e.num_lines {
      sb.IncRef(e.suspect);
      s := s.(post := Some(Entry(e.lno + (same - e.s_lno), e.s_lno + e.num_lines - same, e.suspect,
                                 e.s_lno + (same - e.s_lno), 0)));
      chunk_end := e.lno + (same - e.s_lno);
    } else {
      chunk_end := e.lno + e.num_lines;
    }
    OptNaming(s.pre); OptNaming(s.post); OptNaming(None);
    if chunk_end - lno1 < 1 { return; }
    sb.IncRef(parent);
    s := s.(mid := Some(Entry(lno1, chunk_end - lno1, parent, s_lno1, 0)));
    OptNaming(s.mid);
  }

  /** Equal but for the cached score of the middle part. */
  ghost predicate SameSplit(a: Split, b: Split)
  {
    && a.pre == b.pre && a.post == b.post && a.mid.Some? == b.mid.Some?
    && (a.mid.Some? ==> a.mid.value.(score := 0) == b.mid.value.(score := 0))
  }

  /** The score of the final lines of an entry. */
  ghost function LinesScore(h: History, e: Entry): nat
  {
    if e.lno + e.num_lines <= |h.image| then Score(h.image, e.lno, e.num_lines) else 0
  }

  ghost function MidScore(h: History, s: Split): nat
    requires s.mid.Some?
  {
    LinesScore(h, s.mid.value)
  }

  ghost function Scored(h: History, e: Entry): Entry { e.(score := LinesScore(h, e)) }

  lemma ScoredGood(h: History, e: Entry)
    requires Good(h, e)
    ensures Good(h, Scored(h, e)) && LinesScore(h, Scored(h, e)) == LinesScore(h, e)
  {
  }

  lemma GoodBounds(h: History, e: Entry)
    requires Good(h, e)
    ensures 0 <= e.s_lno && 0 < e.num_lines && e.suspect < |h.file|
    ensures e.lno + e.num_lines <= |h.image| && LinesScore(h, e) == Score(h.image, e.lno, e.num_lines)
    ensures e.score == 0 || e.score == LinesScore(h, e)
  {
  }

  /** The better of two splits: the later one, this, wins if its middle part scores no less. */
  ghost function Better(h: History, best: Split, this_: Split): Split
  {
    if this_.mid.Some? && (best.mid.None? || MidScore(h, best) <= MidScore(h, this_)) then this_ else best
  }

  /** copy_split_if_better */
  method CopySplitIfBetter(sb: Scoreboard, best: Split, this_: Split) returns (best': Split)
    requires this_.mid.Some? ==> Good(sb.h, this_.mid.value)
    requires best.mid.Some? ==> Good(sb.h, best.mid.value)
    requires forall e :: e in Opt(this_.pre) + Opt(this_.mid) + Opt(this_.post) ==> e.suspect < |sb.refcnt|
    requires forall e :: e in Opt(best.pre) + Opt(best.mid) + Opt(best.post) ==> e.suspect < |sb.refcnt|
    modifies sb`refcnt
    ensures SameSplit(best', Better(sb.h, best, this_))
    ensures best'.mid.Some? ==> Good(sb.h, best'.mid.value)
    ensures |sb.refcnt| == old(|sb.refcnt|)
    ensures forall o: nat :: o < |sb.refcnt| ==>
      sb.refcnt[o] == old(sb.refcnt)[o] + SplitRefs(best', o) - SplitRefs(best, o)
  {
    hide Naming, Good, Score, LinesScore;
    best' := best;
    var new_ := this_;
    OptNaming(best.mid); OptNaming(this_.mid);
    if this_.mid.None? { return; }
    GoodBounds(sb.h, this_.mid.value);
    if best.mid.Some? {
      GoodBounds(sb.h, best.mid.value);
      ScoredGood(sb.h, this_.mid.value);
      ScoredGood(sb.h, best.mid.value);
      var s1, m1 := BlameEntryScore(sb.h, this_.mid.value);
      new_ := new_.(mid := Some(m1));
      var s2, m2 := BlameEntryScore(sb.h, best.mid.value);
      best' := best'.(mid := Some(m2));
      OptNaming(best'.mid); OptNaming(new_.mid);
      if s1 < s2 { return; }
    }
    IncSplit(sb, new_);
    DecSplit(sb, best');
    best' := new_;
  }

  // ---------------------------------------------------------------------------------------------
  // The common stretches a diff finds between another file and the n lines of an entry

  /** Lines tlno .. same of the entry are lines plno .. of the file of origin from. */
  datatype Stretch = Stretch(from: nat, tlno: int, same: int, plno: int)

  ghost function Stretches(from: nat, hs: seq<Hunk>, pa: int, pb: int, n: int): seq<Stretch>
  {
    var end := if hs == [] then n else hs[0].start_b;
    (if pb < end then [Stretch(from, pb, end, pa)] else [])
    + (if hs == [] then []
       else Stretches(from, hs[1..], hs[0].start_a + hs[0].count_a, hs[0].start_b + hs[0].count_b, n))
  }

  /** The lines between hunk k - 1 and hunk k of a diff with an entry of n lines. */
  ghost function Between(from: nat, hs: seq<Hunk>, n: int, k: nat): Stretch
    requires k <= |hs|
  {
    Stretch(from, if k == 0 then 0 else hs[k - 1].start_b + hs[k - 1].count_b, if k == |hs| then n else hs[k].start_b,
            if k == 0 then 0 else hs[k - 1].start_a + hs[k - 1].count_a)
  }

  /** A stretch behind at least i hunks, up to the next hunk or the end. */
  ghost predicate IsBetween(from: nat, hs: seq<Hunk>, n: int, i: nat, t: Stretch)
  {
    exists k: nat :: i <= k <= |hs| && t == Between(from, hs, n, k) && t.tlno < t.same
  }

  lemma BetweenHere(from: nat, hs: seq<Hunk>, n: int, i: nat, t: Stretch)
    requires i <= |hs|
    ensures IsBetween(from, hs, n, i, t) <==>
      (t == Between(from, hs, n, i) && t.tlno < t.same) || IsBetween(from, hs, n, i + 1, t)
  {
    hide Between;
  }

  lemma {:induction false} StretchesFrom(from: nat, hs: seq<Hunk>, i: nat, pa: int, pb: int, n: int, t: Stretch)
    requires i <= |hs|
    requires pa == if i == 0 then 0 else hs[i - 1].start_a + hs[i - 1].count_a
    requires pb == if i == 0 then 0 else hs[i - 1].start_b + hs[i - 1].count_b
    ensures t in Stretches(from, hs[i..], pa, pb, n) <==> IsBetween(from, hs, n, i, t)
    decreases |hs| - i
  {
    hide IsBetween, Stretches;
    BetweenHere(from, hs, n, i, t);
    if i == |hs| {
      StretchesEnd(from, hs, pa, pb, n);
      assert !IsBetween(from, hs, n, i + 1, t) by { NoneBetween(from, hs, n, t); }
    } else {
      StretchesStep(from, hs, i, pa, pb, n);
      StretchesFrom(from, hs, i + 1, hs[i].start_a + hs[i].count_a, hs[i].start_b + hs[i].count_b, n, t);
    }
  }

  lemma NoneBetween(from: nat, hs: seq<Hunk>, n: int, t: Stretch)
    ensures !IsBetween(from, hs, n, |hs| + 1, t)
  {
  }

  ghost predicate InLineOrder(ts: seq<Stretch>, pb: int)
  {
    && (forall i :: 0 <= i < |ts| ==> pb <= ts[i].tlno < ts[i].same)
    && forall i, j :: 0 <= i < j < |ts| ==> ts[i].same <= ts[j].tlno
  }

  lemma OrderCons(t: Stretch, rest: seq<Stretch>, pb: int, pb': int)
    requires InLineOrder(rest, pb') && pb <= pb'
    ensures InLineOrder(rest, pb)
    ensures pb <= t.tlno < t.same <= pb' ==> InLineOrder([t] + rest, pb)
  {
  }

  /** The stretches come in the order of the entry's lines. */
  lemma {:induction false} StretchesOrdered(from: nat, a: File, b: File, hs: seq<Hunk>, pa: nat, pb: nat)
    requires ValidHunks(a, b, hs, pa, pb)
    ensures InLineOrder(Stretches(from, hs, pa, pb, |b|), pb)
  {
    hide InLineOrder, Stretches;
    assert hs[0..] == hs;
    if hs == [] {
      StretchesEnd(from, hs, pa, pb, |b|);
      AtMostOne(Stretch(from, pb, |b|, pa), pb);
    } else {
      var pa', pb' := hs[0].start_a + hs[0].count_a, hs[0].start_b + hs[0].count_b;
      StretchesOrdered(from, a, b, hs[1..], pa', pb');
      StretchesStep(from, hs, 0, pa, pb, |b|);
      var rest := Stretches(from, hs[1..], pa', pb', |b|);
      OrderCons(Stretch(from, pb, hs[0].start_b, pa), rest, pb, pb');
      assert [] + rest == rest;
    }
  }

  lemma AtMostOne(t: Stretch, pb: int)
    ensures InLineOrder([], pb) && (pb <= t.tlno < t.same ==> InLineOrder([t], pb))
  {
  }

  /** The common stretches are all that lies before, between and behind the hunks of the diff. */
  lemma MatchesAre(h: History, e: Entry, c: nat)
    requires c < |h.file|
    ensures forall t ::
      t in MatchesIn(h, e, c) <==> IsBetween(c, h.diff(h.file[c], EntryLines(h, e)), e.num_lines, 0, t)
  {
    hide IsBetween, Stretches;
    var hs := h.diff(h.file[c], EntryLines(h, e));
    assert hs[0..] == hs;
    forall t ensures t in MatchesIn(h, e, c) <==> IsBetween(c, hs, e.num_lines, 0, t) {
      StretchesFrom(c, hs, 0, 0, 0, e.num_lines, t);
    }
  }

  /** The final lines of an entry, as a file of their own. */
  ghost function EntryLines(h: History, e: Entry): File
  {
    if e.lno + e.num_lines <= |h.image| then h.image[e.lno..e.lno + e.num_lines] else []
  }

  /** The stretches that the lines of an entry have in common with the file of origin c. */
  ghost function MatchesIn(h: History, e: Entry, c: nat): seq<Stretch>
  {
    if c < |h.file| then Stretches(c, h.diff(h.file[c], EntryLines(h, e)), 0, 0, e.num_lines) else []
  }

  ghost function StretchScore(h: History, e: Entry, t: Stretch): nat
  {
    if 0 <= t.tlno < t.same <= e.num_lines && e.lno + e.num_lines <= |h.image|
    then Score(h.image, e.lno + t.tlno, t.same - t.tlno) else 0
  }

  /** The last of the best scoring stretches. */
  ghost function LastBest(h: History, e: Entry, ts: seq<Stretch>): (t: Option<Stretch>)
    ensures t.None? <==> ts == []
  {
    if ts == [] then None else
    var b, t := LastBest(h, e, ts[..|ts| - 1]), ts[|ts| - 1];
    if b.None? || StretchScore(h, e, b.value) <= StretchScore(h, e, t) then Some(t) else b
  }

  /** No stretch scores more, and those after it score less. */
  lemma {:induction false} LastBestIs(h: History, e: Entry, ts: seq<Stretch>) returns (i: nat)
    requires ts != []
    ensures i < |ts| && LastBest(h, e, ts) == Some(ts[i])
    ensures forall j :: 0 <= j < |ts| ==> StretchScore(h, e, ts[j]) <= StretchScore(h, e, ts[i])
    ensures forall j :: i < j < |ts| ==> StretchScore(h, e, ts[j]) < StretchScore(h, e, ts[i])
  {
    hide StretchScore;
    var n := |ts| - 1;
    i := n;
    if n > 0 {
      var k := LastBestIs(h, e, ts[..n]);
      if StretchScore(h, e, ts[k]) > StretchScore(h, e, ts[n]) { i := k; }
    }
  }

  /** The better of the winners of two lists wins. */
  lemma {:induction false} LastBestConcat(h: History, e: Entry, a: seq<Stretch>, b: seq<Stretch>)
    ensures var s, t := LastBest(h, e, a), LastBest(h, e, b);
      LastBest(h, e, a + b)
      == if s.None? || (t.Some? && StretchScore(h, e, s.value) <= StretchScore(h, e, t.value)) then t else s
    decreases |b|
  {
    hide StretchScore;
    if b == [] {
      assert a + b == a;
    } else {
      assert (a + b)[..|a + b| - 1] == a + b[..|b| - 1];
      LastBestConcat(h, e, a, b[..|b| - 1]);
    }
  }

  /** The stretch is inside the entry, and its lines are lines of the other file. */
  ghost predicate Fits(h: History, e: Entry, t: Stretch)
  {
    && 0 <= t.tlno < t.same <= e.num_lines && t.from < |h.file|
    && 0 <= t.plno && t.plno + (t.same - t.tlno) <= |h.file[t.from]|
    && e.lno + e.num_lines <= |h.image|
    && h.file[t.from][t.plno..t.plno + (t.same - t.tlno)] == EntryLines(h, e)[t.tlno..t.same]
  }

  /** The split of an entry at a stretch. */
  ghost function SplitAt(e: Entry, t: Option<Stretch>): Split
  {
    if t.None? || t.value.same < 0 then NO_SPLIT
    else Overlap(e, t.value.tlno + e.s_lno, t.value.plno, t.value.same + e.s_lno, t.value.from)
  }

  /** A stretch that fits gives a split that cuts the entry, with a good middle part that scores like the stretch. */
  lemma FitsCuts(h: History, e: Entry, t: Stretch)
    requires Good(h, e) && Fits(h, e, t)
    ensures var s := SplitAt(e, Some(t));
      && s.mid == Some(Entry(e.lno + t.tlno, t.same - t.tlno, t.from, t.plno, 0)) && Cuts(e, s, t.from)
      && Good(h, s.mid.value) && MidScore(h, s) == StretchScore(h, e, t)
  {
    hide Good, Score;
    GoodBounds(h, e);
    FitsGood(h, e, t);
    InsideCuts(e, t);
  }

  lemma FitsGood(h: History, e: Entry, t: Stretch)
    requires Good(h, e) && Fits(h, e, t)
    ensures Good(h, Entry(e.lno + t.tlno, t.same - t.tlno, t.from, t.plno, 0))
  {
    SubSlice(h.image, e.lno, e.lno + e.num_lines, t.tlno, t.same);
  }

  lemma InsideCuts(e: Entry, t: Stretch)
    requires 0 <= t.tlno < t.same <= e.num_lines
    ensures var s := SplitAt(e, Some(t));
      s.mid == Some(Entry(e.lno + t.tlno, t.same - t.tlno, t.from, t.plno, 0)) && Cuts(e, s, t.from)
  {
  }

  /** Splitting at the better of two stretches is the better of the two splits. */
  lemma BetterSplit(h: History, e: Entry, a: Option<Stretch>, b: Option<Stretch>)
    requires Good(h, e) && (a.Some? ==> Fits(h, e, a.value)) && (b.Some? ==> Fits(h, e, b.value))
    ensures Better(h, SplitAt(e, a), SplitAt(e, b))
      == SplitAt(e, if a.None? || (b.Some? && StretchScore(h, e, a.value) <= StretchScore(h, e, b.value)) then b else a)
  {
    hide Good, Fits, StretchScore, SplitAt;
    if a.Some? { FitsCuts(h, e, a.value); }
    if b.Some? { FitsCuts(h, e, b.value); }
    assert SplitAt(e, None) == NO_SPLIT by { NothingSplit(e); }
  }

  lemma NothingSplit(e: Entry)
    ensures SplitAt(e, None) == NO_SPLIT
  {
  }

  lemma BetterSame(h: History, a: Split, a': Split, b: Split, b': Split)
    requires SameSplit(a, a') && SameSplit(b, b')
    ensures SameSplit(Better(h, a, b), Better(h, a', b'))
  {
  }

  /** s is the split at stretch t, with a good middle part, if any. */
  ghost predicate Splits(h: History, e: Entry, s: Split, t: Option<Stretch>)
  {
    && SameSplit(s, SplitAt(e, t)) && (t.Some? ==> Fits(h, e, t.value))
    && (s.mid.Some? ==> Good(h, s.mid.value))
  }

  lemma SplitsNone(h: History, e: Entry)
    ensures Splits(h, e, NO_SPLIT, None)
  {
  }

  lemma SplitsSuspects(h: History, e: Entry, s: Split, t: Option<Stretch>)
    requires Good(h, e) && Splits(h, e, s, t)
    ensures forall x :: x in Opt(s.pre) + Opt(s.mid) + Opt(s.post) ==> x.suspect < |h.file|
    ensures s.mid.Some? ==> Good(h, s.mid.value)
  {
    if t.Some? { FitsCuts(h, e, t.value); }
  }

  /** What copy_split_if_better makes of the splits at two stretches is the split at the better one. */
  lemma SplitsBetter(h: History, e: Entry, s: Split, a: Option<Stretch>, this_: Split, b: Option<Stretch>, s': Split)
    requires Good(h, e) && Splits(h, e, s, a) && Splits(h, e, this_, b)
    requires SameSplit(s', Better(h, s, this_)) && (s'.mid.Some? ==> Good(h, s'.mid.value))
    ensures Splits(h, e, s',
      if a.None? || (b.Some? && StretchScore(h, e, a.value) <= StretchScore(h, e, b.value)) then b else a)
  {
    hide Good, Fits, StretchScore, SplitAt, Better;
    BetterSplit(h, e, a, b);
    BetterSame(h, s, SplitAt(e, a), this_, SplitAt(e, b));
  }

  /** handle_split: tries the stretch tlno .. same of ent, given relative to ent's first line. */
  method HandleSplit(sb: Scoreboard, ent: Entry, tlno: nat, plno: nat, same: nat, parent: nat, split: Split,
                     ghost ts: seq<Stretch>) returns (split': Split)
    requires sb.Shape() && Good(sb.h, ent)
    requires tlno < same ==> Fits(sb.h, ent, Stretch(parent, tlno, same, plno))
    requires parent < |sb.h.file| && Splits(sb.h, ent, split, LastBest(sb.h, ent, ts))
    modifies sb`refcnt
    ensures sb.Shape()
    ensures Splits(sb.h, ent, split',
      LastBest(sb.h, ent, ts + if tlno < same then [Stretch(parent, tlno, same, plno)] else []))
    ensures forall o: nat :: o < |sb.refcnt| ==>
      sb.refcnt[o] == old(sb.refcnt)[o] + SplitRefs(split', o) - SplitRefs(split, o)
  {
    hide Naming, Score, Good, Cuts, Splits, Fits, LastBest, StretchScore, Overlap, SplitAt;
    GoodBounds(sb.h, ent);
    split' := split;
    if ent.num_lines <= tlno {
      FitsInside(sb.h, ent, Stretch(parent, tlno, same, plno));
      assert ts + [] == ts;
      return;
    }
    if tlno < same {
      ghost var t := Stretch(parent, tlno, same, plno);
      var this_ := SplitOverlap(sb, ent, tlno + ent.s_lno, plno, same + ent.s_lno, parent);
      SplitsOne(sb.h, ent, t);
      SplitsSuspects(sb.h, ent, this_, Some(t));
      SplitsSuspects(sb.h, ent, split, LastBest(sb.h, ent, ts));
      split' := CopySplitIfBetter(sb, split, this_);
      SplitsBetter(sb.h, ent, split, LastBest(sb.h, ent, ts), this_, Some(t), split');
      LastBestMore(sb.h, ent, ts, t);
      DecSplit(sb, this_);
    } else {
      assert ts + [] == ts;
    }
  }

  lemma FitsInside(h: History, e: Entry, t: Stretch)
    ensures Fits(h, e, t) ==> t.tlno < e.num_lines
  {
  }

  lemma SplitsOne(h: History, e: Entry, t: Stretch)
    requires Good(h, e) && Fits(h, e, t)
    ensures Splits(h, e, SplitAt(e, Some(t)), Some(t))
    ensures 0 <= e.s_lno && SplitAt(e, Some(t)) == Overlap(e, t.tlno + e.s_lno, t.plno, t.same + e.s_lno, t.from)
  {
    FitsCuts(h, e, t);
  }

  lemma LastBestMore(h: History, e: Entry, ts: seq<Stretch>, t: Stretch)
    ensures var b := LastBest(h, e, ts);
      LastBest(h, e, ts + [t])
      == if b.None? || StretchScore(h, e, b.value) <= StretchScore(h, e, t) then Some(t) else b
    ensures LastBest(h, e, []) == None
  {
    assert (ts + [t])[..|ts|] == ts;
  }

  /**
   find_copy_in_blob: diffs the parent's file with ent's own lines, and splits ent at the last of the best
   scoring common stretches.
   */
  method FindCopyInBlob(sb: Scoreboard, ent: Entry, parent: nat) returns (split: Split)
    requires sb.Shape() && Good(sb.h, ent) && parent < |sb.h.file|
    modifies sb`refcnt
    ensures sb.Shape() && Splits(sb.h, ent, split, LastBest(sb.h, ent, MatchesIn(sb.h, ent, parent)))
    ensures forall o: nat :: o < |sb.refcnt| ==> sb.refcnt[o] == old(sb.refcnt)[o] + SplitRefs(split, o)
  {
    hide Naming, Score, Good, Splits, Stretches, ValidHunks, SplitRefs, LastBest, Fits;
    assert ent.lno + ent.num_lines <= |sb.h.image| by { GoodBounds(sb.h, ent); }
    var file_p, file_o := sb.h.file[parent], sb.h.image[ent.lno..ent.lno + ent.num_lines];
    var hs := sb.h.diff(file_p, file_o);
    split := NO_SPLIT;
    SplitsNone(sb.h, ent);
    LastBestMore(sb.h, ent, [], Stretch(0, 0, 0, 0));
    assert ValidHunks(file_p, file_o, hs, 0, 0);
    assert forall o: nat :: SplitRefs(NO_SPLIT, o) == 0 by { NoSplitRefs(); }
    var i, plno: nat, tlno: nat := 0, 0, 0;
    ghost var ts: seq<Stretch> := [];
    assert hs[0..] == hs;
    while i < |hs|
      invariant i <= |hs| && sb.Shape() && ValidHunks(file_p, file_o, hs[i..], plno, tlno)
      invariant Splits(sb.h, ent, split, LastBest(sb.h, ent, ts))
      invariant ts + Stretches(parent, hs[i..], plno, tlno, ent.num_lines)
        == Stretches(parent, hs, 0, 0, ent.num_lines)
      invariant forall o: nat :: o < |sb.refcnt| ==> sb.refcnt[o] == old(sb.refcnt)[o] + SplitRefs(split, o)
    {
      StretchesStep(parent, hs, i, plno, tlno, ent.num_lines);
      HunkFits(sb.h, ent, parent, hs, i, plno, tlno);
      split := HandleSplit(sb, ent, tlno, plno, hs[i].start_b, parent, split, ts);
      ts := ts + (if tlno < hs[i].start_b then [Stretch(parent, tlno, hs[i].start_b, plno)] else []);
      plno, tlno := hs[i].start_a + hs[i].count_a, hs[i].start_b + hs[i].count_b;
      i := i + 1;
    }
    StretchesEnd(parent, hs, plno, tlno, ent.num_lines);
    TailFits(sb.h, ent, parent, hs, plno, tlno);
    split := HandleSplit(sb, ent, tlno, plno, ent.num_lines, parent, split, ts);
  }

  lemma NoSplitRefs()
    ensures forall o: nat :: SplitRefs(NO_SPLIT, o) == 0
  {
  }

  lemma StretchesStep(from: nat, hs: seq<Hunk>, i: nat, pa: int, pb: int, n: int)
    requires i < |hs|
    ensures Stretches(from, hs[i..], pa, pb, n)
      == (if pb < hs[i].start_b then [Stretch(from, pb, hs[i].start_b, pa)] else [])
         + Stretches(from, hs[i + 1..], hs[i].start_a + hs[i].count_a, hs[i].start_b + hs[i].count_b, n)
  {
    assert hs[i..][0] == hs[i] && hs[i..][1..] == hs[i + 1..];
  }

  lemma StretchesEnd(from: nat, hs: seq<Hunk>, pa: int, pb: int, n: int)
    ensures Stretches(from, hs[|hs|..], pa, pb, n) == if pb < n then [Stretch(from, pb, n, pa)] else []
  {
  }

  lemma HunkFits(h: History, e: Entry, from: nat, hs: seq<Hunk>, i: nat, pa: nat, pb: nat)
    requires e.lno + e.num_lines <= |h.image| && from < |h.file|
    requires i < |hs| && ValidHunks(h.file[from], EntryLines(h, e), hs[i..], pa, pb)
    ensures pb < hs[i].start_b ==> Fits(h, e, Stretch(from, pb, hs[i].start_b, pa))
    ensures ValidHunks(h.file[from], EntryLines(h, e), hs[i + 1..],
                       hs[i].start_a + hs[i].count_a, hs[i].start_b + hs[i].count_b)
  {
    var a, b := h.file[from], EntryLines(h, e);
    assert hs[i..][0] == hs[i] && hs[i..][1..] == hs[i + 1..];
    assert |a[pa..hs[i].start_a]| == |b[pb..hs[i].start_b]|;
  }

  lemma TailFits(h: History, e: Entry, from: nat, hs: seq<Hunk>, pa: nat, pb: nat)
    requires e.lno + e.num_lines <= |h.image| && from < |h.file|
    requires ValidHunks(h.file[from], EntryLines(h, e), hs[|hs|..], pa, pb)
    ensures pb < e.num_lines ==> Fits(h, e, Stretch(from, pb, e.num_lines, pa))
  {
    var a, b := h.file[from], EntryLines(h, e);
    assert |a[pa..]| == |b[pb..]|;
    assert b[pb..] == b[pb..e.num_lines] && a[pa..] == a[pa..pa + (e.num_lines - pb)];
  }

  // ---------------------------------------------------------------------------------------------

  /** add_blame_entry: a copy of src at the end of the queue, which takes a reference of its own. */
  method AddBlameEntry(sb: Scoreboard, queue: seq<Entry>, src: Entry) returns (queue': seq<Entry>)
    requires src.suspect < |sb.refcnt|
    modifies sb`refcnt
    ensures queue' == queue + [src] && sb.refcnt == old(sb.refcnt)[src.suspect := old(sb.refcnt)[src.suspect] + 1]
  {
    sb.IncRef(src.suspect);
    queue' := queue + [src];
  }

  /** dup_entry: dst's node becomes src at the end of the queue; dst's reference goes. */
  method DupEntry(sb: Scoreboard, queue: seq<Entry>, dst: Entry, src: Entry) returns (queue': seq<Entry>)
    requires src.suspect < |sb.refcnt| && dst.suspect < |sb.refcnt|
    modifies sb`refcnt
    ensures queue' == queue + [src] && |sb.refcnt| == old(|sb.refcnt|)
    ensures forall o: nat :: o < |sb.refcnt| ==> sb.refcnt[o] == old(sb.refcnt)[o] + One(src, o) - One(dst, o)
  {
    sb.IncRef(src.suspect);
    sb.DecRef(dst.suspect);
    queue' := queue + [src];
  }

  /** split_blame: the middle part goes to blamed, the others to unblamed; e's own node is reused. */
  method SplitBlame(sb: Scoreboard, blamed: seq<Entry>, unblamed: seq<Entry>, split: Split, e: Entry)
    returns (blamed': seq<Entry>, unblamed': seq<Entry>)
    requires split.mid.Some? && e.suspect < |sb.refcnt|
    requires forall x :: x in Opt(split.pre) + Opt(split.mid) + Opt(split.post) ==> x.suspect < |sb.refcnt|
    modifies sb`refcnt
    ensures blamed' == blamed + Opt(split.mid) && unblamed' == unblamed + Opt(split.pre) + Opt(split.post)
    ensures |sb.refcnt| == old(|sb.refcnt|)
    ensures forall o: nat :: o < |sb.refcnt| ==> sb.refcnt[o] == old(sb.refcnt)[o] + SplitRefs(split, o) - One(e, o)
  {
    hide Naming;
    OptNaming(split.pre); OptNaming(split.mid); OptNaming(split.post);
    assert split.mid.value in Opt(split.mid);
    assert split.pre.Some? ==> split.pre.value in Opt(split.pre);
    assert split.post.Some? ==> split.post.value in Opt(split.post);
    blamed', unblamed' := blamed, unblamed;
    if split.pre.Some? && split.post.Some? {
      unblamed' := DupEntry(sb, unblamed', e, split.pre.value);
      unblamed' := AddBlameEntry(sb, unblamed', split.post.value);
      blamed' := AddBlameEntry(sb, blamed', split.mid.value);
    } else if split.pre.None? && split.post.None? {
      blamed' := DupEntry(sb, blamed', e, split.mid.value);
    } else if split.pre.Some? {
      unblamed' := DupEntry(sb, unblamed', e, split.pre.value);
      blamed' := AddBlameEntry(sb, blamed', split.mid.value);
    } else {
      blamed' := DupEntry(sb, blamed', e, split.mid.value);
      unblamed' := AddBlameEntry(sb, unblamed', split.post.value);
    }
  }

  // ---------------------------------------------------------------------------------------------
  // filter_small

  /** The entries of a list, scored, that are small (score at most min), or that are not. */
  ghost function OfSize(h: History, es: seq<Entry>, min: nat, small: bool): seq<Entry>
  {
    if es == [] then []
    else (if (LinesScore(h, es[0]) <= min) == small then [Scored(h, es[0])] else []) + OfSize(h, es[1..], min, small)
  }

  lemma OfSizeStep(h: History, es: seq<Entry>, min: nat)
    requires es != []
    ensures var e' := Scored(h, es[0]);
      var s, l := OfSize(h, es[1..], min, true), OfSize(h, es[1..], min, false);
      && OfSize(h, es, min, true) == (if e'.score <= min then [e'] + s else s)
      && OfSize(h, es, min, false) == (if e'.score <= min then l else [e'] + l)
  {
  }

  lemma OfSizeNil(h: History, min: nat)
    ensures OfSize(h, [], min, true) == [] == OfSize(h, [], min, false)
  {
  }

  /**
   filter_small: the small entries of source move, in order, into the list small at the link link; the
   result link is after them.
   */
  method FilterSmall(h: History, small: seq<Entry>, link: nat, source: seq<Entry>, score_min: nat)
    returns (small': seq<Entry>, link': nat, source': seq<Entry>)
    requires AllGood(h, source) && link <= |small|
    ensures small' == small[..link] + OfSize(h, source, score_min, true) + small[link..]
    ensures link' == link + |OfSize(h, source, score_min, true)|
    ensures source' == OfSize(h, source, score_min, false)
  {
    hide Good, OfSize, LinesScore;
    OfSizeNil(h, score_min);
    var oldsmall := small[link..];
    small', source' := small[..link], [];
    ghost var moved: seq<Entry> := [];
    var p := source;
    while p != []
      invariant AllGood(h, p)
      invariant small' == small[..link] + moved
      invariant moved + OfSize(h, p, score_min, true) == OfSize(h, source, score_min, true)
      invariant source' + OfSize(h, p, score_min, false) == OfSize(h, source, score_min, false)
    {
      GoodBounds(h, p[0]);
      FilterStep(h, p, score_min, moved, source');
      var score, e := BlameEntryScore(h, p[0]);
      if score <= score_min {
        small' := small' + [e];
        moved := moved + [e];
      } else {
        source' := source' + [e];
      }
      p := p[1..];
    }
    link' := |small'|;
    small' := small' + oldsmall;
  }

  lemma FilterStep(h: History, p: seq<Entry>, min: nat, moved: seq<Entry>, source: seq<Entry>)
    requires p != []
    ensures var e, s, l := Scored(h, p[0]), OfSize(h, p[1..], min, true), OfSize(h, p[1..], min, false);
      && moved + OfSize(h, p, min, true) == (if e.score <= min then moved + [e] else moved) + s
      && source + OfSize(h, p, min, false) == (if e.score <= min then source else source + [e]) + l
  {
    hide OfSize, LinesScore;
    OfSizeStep(h, p, min);
  }
}
