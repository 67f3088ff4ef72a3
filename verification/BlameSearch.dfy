/**
 Searching the parents' files for moved and copied lines until nothing more can be passed
 (find_move_in_parent, find_copy_in_parent in git-2.15.0/blame.c).
 */
module BlameSearch {
  import opened BlameEntries
  import opened BlameHistory
  import opened BlameCut
  import opened BlameMove

  /** A list of good entries that all name origin o, in any order. */
  ghost predicate Mine(h: History, es: seq<Entry>, o: nat) { AllGood(h, es) && AllNaming(es, o) }

  ghost predicate LowerOrigin(h: History, o: nat, target: nat)
    requires target < |h.commit| && h.commit[target] < |h.rank|
  {
    o < |h.commit| && h.commit[o] < |h.rank| && h.rank[h.commit[o]] < h.rank[h.commit[target]]
  }

  /** Good entries that name origins of commits of smaller rank than target's. */
  ghost predicate Passed(h: History, es: seq<Entry>, target: nat)
  {
    && AllGood(h, es)
    && target < |h.commit| && h.commit[target] < |h.rank|
    && forall e :: e in es ==> LowerOrigin(h, e.suspect, target)
  }

  ghost function Cover3(a: seq<Entry>, b: seq<Entry>, c: seq<Entry>): multiset<int> { Cover(a) + Cover(b) + Cover(c) }

  lemma {:induction false} CoverSize(es: seq<Entry>)
    ensures |Cover(es)| == Size(es)
  {
    if es != [] {
      RunSize(es[0].lno, es[0].s_lno, es[0].num_lines);
      CoverSize(es[1..]);
    }
  }

  lemma {:induction false} RunSize(lno: int, s: int, n: nat)
    ensures |Run(lno, s, n, FinalOf())| == n
    decreases n
  {
    if n > 0 { RunSize(lno + 1, s + 1, n - 1); }
  }

  lemma CoverCat(a: seq<Entry>, b: seq<Entry>)
    ensures Cover(a + b) == Cover(a) + Cover(b) && Size(a + b) == Size(a) + Size(b)
  {
    SumConcat(a, b, FinalOf());
    SizeConcat(a, b);
  }

  // ---------------------------------------------------------------------------------------------
  // What the searches come to, as functions of the list that is searched

  /** The stretches an entry has in common with files, file by file. */
  ghost function Matches(h: History, e: Entry, files: seq<nat>): seq<Stretch>
  {
    if files == [] then [] else Matches(h, e, files[..|files| - 1]) + MatchesIn(h, e, files[|files| - 1])
  }

  /** The split of an entry at the last of the best scoring stretches. */
  ghost function Choice(h: History, e: Entry, files: seq<nat>): Split
  {
    SplitAt(e, LastBest(h, e, Matches(h, e, files)))
  }

  /** A list dealt out: what is passed to other origins, what is put aside, and what stays. */
  datatype Haul = Haul(passed: seq<Entry>, aside: seq<Entry>, left: seq<Entry>)

  /** An entry is passed in part if its best stretch scores more than min; then the outer parts are put aside. */
  ghost function DealOne(h: History, e: Entry, files: seq<nat>, min: nat): Haul
  {
    var s := Choice(h, e, files);
    if s.mid.Some? && min < MidScore(h, s) then Haul([Scored(h, s.mid.value)], Opt(s.pre) + Opt(s.post), [])
    else Haul([], [], [e])
  }

  /** One pass over the entries not yet tested. */
  ghost function DealAll(h: History, es: seq<Entry>, files: seq<nat>, min: nat): Haul
  {
    if es == [] then Haul([], [], []) else
    var a, b := DealOne(h, es[0], files, min), DealAll(h, es[1..], files, min);
    Haul(a.passed + b.passed, a.aside + b.aside, a.left + b.left)
  }

  ghost predicate FilesExist(h: History, files: seq<nat>) { forall c :: c in files ==> c < |h.file| }

  /** Passes until there is nothing to test: outer parts are tested in the next pass unless they are too small. */
  ghost function Search(h: History, es: seq<Entry>, files: seq<nat>, min: nat): (r: Haul)
    requires h.Valid() && AllGood(h, es) && FilesExist(h, files)
    ensures AllGood(h, r.passed) && AllGood(h, r.aside) && AllGood(h, r.left)
    decreases Size(es)
  {
    if es == [] then Haul([], [], []) else
    var d := DealAll(h, es, files, min);
    DealGood(h, es, files, min);
    OfSizeParts(h, d.aside, min);
    var again := Search(h, OfSize(h, d.aside, min, false), files, min);
    Haul(d.passed + again.passed, OfSize(h, d.aside, min, true) + again.aside, d.left + again.left)
  }

  lemma {:induction false} StretchesFit(h: History, e: Entry, from: nat, hs: seq<Hunk>, pa: nat, pb: nat)
    requires e.lno + e.num_lines <= |h.image| && from < |h.file|
    requires ValidHunks(h.file[from], EntryLines(h, e), hs, pa, pb)
    ensures forall t :: t in Stretches(from, hs, pa, pb, e.num_lines) ==> Fits(h, e, t) && t.from == from
  {
    hide Fits, EntryLines, Stretches, ValidHunks;
    assert hs[0..] == hs;
    if hs == [] {
      TailFits(h, e, from, hs, pa, pb);
      StretchesEnd(from, hs, pa, pb, e.num_lines);
    } else {
      HunkFits(h, e, from, hs, 0, pa, pb);
      StretchesStep(from, hs, 0, pa, pb, e.num_lines);
      StretchesFit(h, e, from, hs[1..], hs[0].start_a + hs[0].count_a, hs[0].start_b + hs[0].count_b);
    }
  }

  lemma {:induction false} MatchesFit(h: History, e: Entry, files: seq<nat>)
    requires h.Valid() && Good(h, e) && FilesExist(h, files)
    ensures forall t :: t in Matches(h, e, files) ==> Fits(h, e, t) && t.from in files
  {
    hide Fits, Good;
    if files != [] {
      var c := files[|files| - 1];
      var rest := files[..|files| - 1];
      forall x | x in rest ensures x < |h.file| { assert x in files; }
      assert c in files;
      MatchesFit(h, e, rest);
      GoodBounds(h, e);
      StretchesFit(h, e, c, h.diff(h.file[c], EntryLines(h, e)), 0, 0);
    }
  }

  /** The stretches with one file after the other. */
  lemma {:induction false} MatchesConcat(h: History, e: Entry, a: seq<nat>, b: seq<nat>)
    ensures Matches(h, e, a + b) == Matches(h, e, a) + Matches(h, e, b)
    decreases |b|
  {
    hide MatchesIn;
    if b == [] {
      assert a + b == a;
    } else {
      assert (a + b)[..|a + b| - 1] == a + b[..|b| - 1];
      MatchesConcat(h, e, a, b[..|b| - 1]);
    }
  }

  /** Every stretch with every file is among the matches. */
  lemma {:induction false} MatchesHas(h: History, e: Entry, files: seq<nat>, c: nat)
    requires c in files
    ensures forall t :: t in MatchesIn(h, e, c) ==> t in Matches(h, e, files)
  {
    hide MatchesIn;
    if c != files[|files| - 1] { MatchesHas(h, e, files[..|files| - 1], c); }
  }

  /** A choice is at a stretch that fits, and no stretch scores more. */
  lemma ChoiceFits(h: History, e: Entry, files: seq<nat>) returns (t: Stretch)
    requires h.Valid() && Good(h, e) && FilesExist(h, files) && Choice(h, e, files).mid.Some?
    ensures Choice(h, e, files) == SplitAt(e, Some(t)) && Fits(h, e, t) && t.from in files
    ensures forall u :: u in Matches(h, e, files) ==> StretchScore(h, e, u) <= StretchScore(h, e, t)
  {
    hide Good, Fits, StretchScore;
    var ts := Matches(h, e, files);
    var i := LastBestIs(h, e, ts);
    MatchesFit(h, e, files);
    t := ts[i];
  }

  /** No stretch that e has in common with the file of origin c scores more than min. */
  ghost predicate Untakable(h: History, e: Entry, c: nat, min: nat)
  {
    forall t :: t in MatchesIn(h, e, c) ==> StretchScore(h, e, t) <= min
  }

  ghost predicate AllUntakable(h: History, es: seq<Entry>, files: seq<nat>, min: nat)
  {
    forall e, c :: e in es && c in files ==> Untakable(h, e, c, min)
  }

  /** Entries that name one of the files, and score more than min. */
  ghost predicate Carried(h: History, es: seq<Entry>, files: seq<nat>, min: nat)
  {
    forall e :: e in es ==> e.suspect in files && min < e.score == LinesScore(h, e)
  }

  ghost predicate FilesLower(h: History, files: seq<nat>, target: nat)
  {
    target < |h.commit| && h.commit[target] < |h.rank| && forall c :: c in files ==> LowerOrigin(h, c, target)
  }

  /**
   What dealing out a list means.  Every final line is in exactly one of the three lists.  What is passed
   names one of the files, has the text it is passed for, and scores more than min.  What is not passed still
   points where it did, and what stays has no stretch in common with any of the files that is worth passing.
   */
  ghost predicate Dealt(h: History, es: seq<Entry>, d: Haul, files: seq<nat>, min: nat, target: nat)
  {
    && Passed(h, d.passed, target) && Carried(h, d.passed, files, min)
    && Mine(h, d.aside, target) && Mine(h, d.left, target) && AllUntakable(h, d.left, files, min)
    && Cover3(d.passed, d.aside, d.left) == Cover(es)
    && Pairs(d.aside) + Pairs(d.left) <= Pairs(es)
  }

  /** Either all of an entry stays, or a stretch of it is passed that no other common stretch outscores. */
  lemma DealOneMeans(h: History, e: Entry, files: seq<nat>, min: nat, target: nat)
    requires h.Valid() && Good(h, e) && e.suspect == target && FilesLower(h, files, target)
    ensures Dealt(h, [e], DealOne(h, e, files, min), files, min, target)
    ensures Size(DealOne(h, e, files, min).aside) < Size([e])
  {
    hide Good, Fits, StretchScore, LinesScore, Sum, Choice, MatchesIn, Size, Cuts, Dealt, h.Valid;
    LowerExist(h, files, target);
    var s := Choice(h, e, files);
    if s.mid.Some? && min < MidScore(h, s) {
      var t := ChoiceFits(h, e, files);
      FitsCuts(h, e, t);
      PassedPart(h, e, s, t.from, files, min, target);
    } else {
      if s.mid.Some? { var t := ChoiceFits(h, e, files); FitsCuts(h, e, t); } else { NoneChosen(h, e, files); }
      forall c | c in files ensures Untakable(h, e, c, min) { MatchesHas(h, e, files, c); }
      StaysWhole(h, e, files, min, target);
    }
  }

  /** The split of an entry whose middle part is passed deals it out. */
  lemma PassedPart(h: History, e: Entry, s: Split, from: nat, files: seq<nat>, min: nat, target: nat)
    requires Good(h, e) && e.suspect == target && FilesLower(h, files, target) && from in files
    requires s.mid.Some? && Cuts(e, s, from) && Good(h, s.mid.value) && min < MidScore(h, s)
    ensures Dealt(h, [e], Haul([Scored(h, s.mid.value)], Opt(s.pre) + Opt(s.post), []), files, min, target)
    ensures Size(Opt(s.pre) + Opt(s.post)) < Size([e])
  {
    hide Good, LinesScore, Sum, Size;
    var m := s.mid.value;
    GoodBounds(h, m);
    ScoredGood(h, m);
    CutsGood(h, e, s, from);
    PartSums(e, s, from, Scored(h, m));
    EmptySums();
  }

  lemma PartSums(e: Entry, s: Split, from: nat, m: Entry)
    requires s.mid.Some? && Cuts(e, s, from) && m.(score := 0) == s.mid.value.(score := 0)
    ensures Cover([m]) + Cover(Opt(s.pre) + Opt(s.post)) == Cover([e])
    ensures Pairs(Opt(s.pre) + Opt(s.post)) <= Pairs([e]) && Size(Opt(s.pre) + Opt(s.post)) < Size([e])
  {
    hide Sum, Run, Size, Cuts;
    CutsSum(e, s, from, PairOf());
    CutsCover(e, s, from);
    SumConcat(Opt(s.pre), Opt(s.post), PairOf());
    SumConcat(Opt(s.pre), Opt(s.post), FinalOf());
    SizeConcat(Opt(s.pre), Opt(s.post));
    OneSum(m, FinalOf()); OneSum(s.mid.value, FinalOf());
    assert s.mid.value.num_lines > 0 by { CutsSome(e, s, from); }
    OneSize(s.mid.value);
  }

  lemma CutsSome(e: Entry, s: Split, from: nat)
    requires s.mid.Some? && Cuts(e, s, from)
    ensures s.mid.value.num_lines > 0
  {
  }

  lemma StaysWhole(h: History, e: Entry, files: seq<nat>, min: nat, target: nat)
    requires Good(h, e) && e.suspect == target && FilesLower(h, files, target)
    requires forall c :: c in files ==> Untakable(h, e, c, min)
    ensures Dealt(h, [e], Haul([], [], [e]), files, min, target) && Size([]) < Size([e])
  {
    hide Good, Sum, Untakable, Size;
    GoodBounds(h, e);
    OneSize(e);
    EmptySums();
  }

  lemma NoneChosen(h: History, e: Entry, files: seq<nat>)
    requires h.Valid() && Good(h, e) && FilesExist(h, files)
    ensures Choice(h, e, files).mid.None? ==> Matches(h, e, files) == []
  {
    hide Good, Fits, StretchScore;
    if Matches(h, e, files) != [] {
      var i := LastBestIs(h, e, Matches(h, e, files));
      MatchesFit(h, e, files);
      FitsCuts(h, e, Matches(h, e, files)[i]);
    }
  }

  lemma EmptySums()
    ensures Cover([]) == multiset{} && Pairs([]) == multiset{} && Size([]) == 0
    ensures forall o: nat :: Naming([], o) == 0
  {
  }

  lemma {:induction false} DealAllMeans(h: History, es: seq<Entry>, files: seq<nat>, min: nat, target: nat)
    requires h.Valid() && Mine(h, es, target) && FilesLower(h, files, target)
    ensures Dealt(h, es, DealAll(h, es, files, min), files, min, target)
    ensures es != [] ==> Size(DealAll(h, es, files, min).aside) < Size(es)
  {
    hide Good, Sum, DealOne, Untakable;
    EmptySums();
    if es != [] {
      assert es == [es[0]] + es[1..];
      DealOneMeans(h, es[0], files, min, target);
      DealAllMeans(h, es[1..], files, min, target);
      var a, b := DealOne(h, es[0], files, min), DealAll(h, es[1..], files, min);
      DealtTwo(h, [es[0]], a, es[1..], b, files, min, target);
      CoverCat([es[0]], es[1..]);
      SizeConcat(a.aside, b.aside);
    }
  }

  /** Two lists dealt out are their concatenation dealt out. */
  lemma DealtTwo(h: History, es: seq<Entry>, a: Haul, fs: seq<Entry>, b: Haul, files: seq<nat>, min: nat, target: nat)
    requires Dealt(h, es, a, files, min, target) && Dealt(h, fs, b, files, min, target)
    ensures Dealt(h, es + fs, Haul(a.passed + b.passed, a.aside + b.aside, a.left + b.left), files, min, target)
  {
    hide *;
    DealtParts(h, es, a, files, min, target);
    DealtParts(h, fs, b, files, min, target);
    var d := Haul(a.passed + b.passed, a.aside + b.aside, a.left + b.left);
    PassedConcat(h, a.passed, b.passed, files, min, target);
    MineConcat(h, a.aside, b.aside, target);
    MineConcat(h, a.left, b.left, target);
    UntakableConcat(h, a.left, b.left, files, min);
    CoverCat(es, fs); CoverCat(a.passed, b.passed); CoverCat(a.aside, b.aside); CoverCat(a.left, b.left);
    ThreeTwice(Cover(a.passed), Cover(a.aside), Cover(a.left), Cover(b.passed), Cover(b.aside), Cover(b.left));
    SumConcat(es, fs, PairOf()); SumConcat(a.aside, b.aside, PairOf()); SumConcat(a.left, b.left, PairOf());
    TwoIn(Pairs(a.aside), Pairs(a.left), Pairs(es), Pairs(b.aside), Pairs(b.left), Pairs(fs));
    DealtWhole(h, es + fs, d, files, min, target);
  }

  lemma DealtParts(h: History, es: seq<Entry>, d: Haul, files: seq<nat>, min: nat, target: nat)
    requires Dealt(h, es, d, files, min, target)
    ensures Passed(h, d.passed, target) && Carried(h, d.passed, files, min)
    ensures Mine(h, d.aside, target) && Mine(h, d.left, target) && AllUntakable(h, d.left, files, min)
    ensures Cover(d.passed) + Cover(d.aside) + Cover(d.left) == Cover(es)
    ensures Sum(d.aside, PairOf()) + Sum(d.left, PairOf()) <= Sum(es, PairOf())
    ensures Pairs(d.aside) == Sum(d.aside, PairOf()) && Pairs(d.left) == Sum(d.left, PairOf())
    ensures Pairs(es) == Sum(es, PairOf())
  {
    hide Passed, Carried, Mine, AllUntakable, Sum;
  }

  lemma DealtWhole(h: History, es: seq<Entry>, d: Haul, files: seq<nat>, min: nat, target: nat)
    requires Passed(h, d.passed, target) && Carried(h, d.passed, files, min)
    requires Mine(h, d.aside, target) && Mine(h, d.left, target) && AllUntakable(h, d.left, files, min)
    requires Cover(d.passed) + Cover(d.aside) + Cover(d.left) == Cover(es)
    requires Sum(d.aside, PairOf()) + Sum(d.left, PairOf()) <= Sum(es, PairOf())
    ensures Dealt(h, es, d, files, min, target)
  {
    hide Passed, Carried, Mine, AllUntakable, Sum;
  }

  lemma PassedConcat(h: History, a: seq<Entry>, b: seq<Entry>, files: seq<nat>, min: nat, target: nat)
    requires Passed(h, a, target) && Passed(h, b, target) && Carried(h, a, files, min) && Carried(h, b, files, min)
    ensures Passed(h, a + b, target) && Carried(h, a + b, files, min)
  {
    hide Good, LowerOrigin;
  }

  lemma MineConcat(h: History, a: seq<Entry>, b: seq<Entry>, target: nat)
    requires Mine(h, a, target) && Mine(h, b, target)
    ensures Mine(h, a + b, target)
  {
    hide Good;
  }

  lemma UntakableConcat(h: History, a: seq<Entry>, b: seq<Entry>, files: seq<nat>, min: nat)
    requires AllUntakable(h, a, files, min) && AllUntakable(h, b, files, min)
    ensures AllUntakable(h, a + b, files, min)
  {
    hide Untakable;
  }

  lemma ThreeTwice<T>(p: multiset<T>, a: multiset<T>, l: multiset<T>, p': multiset<T>, a': multiset<T>, l': multiset<T>)
    ensures (p + p') + (a + a') + (l + l') == (p + a + l) + (p' + a' + l')
  {
  }

  lemma TwoIn<T>(a: multiset<T>, l: multiset<T>, e: multiset<T>, a': multiset<T>, l': multiset<T>, e': multiset<T>)
    requires a + l <= e && a' + l' <= e'
    ensures (a + a') + (l + l') <= e + e'
  {
    assert (a + a') + (l + l') == (a + l) + (a' + l');
  }

  /** For termination: entries that all name their own origins are dealt out one by one. */
  lemma {:induction false} DealGood(h: History, es: seq<Entry>, files: seq<nat>, min: nat)
    requires h.Valid() && AllGood(h, es) && FilesExist(h, files)
    ensures var d := DealAll(h, es, files, min); AllGood(h, d.passed) && AllGood(h, d.aside) && AllGood(h, d.left)
    ensures es != [] ==> Size(DealAll(h, es, files, min).aside) < Size(es)
  {
    hide Good, DealOne;
    EmptySums();
    if es != [] {
      assert es == [es[0]] + es[1..];
      DealOneGood(h, es[0], files, min);
      DealGood(h, es[1..], files, min);
      SizeConcat([es[0]], es[1..]);
      SizeConcat(DealOne(h, es[0], files, min).aside, DealAll(h, es[1..], files, min).aside);
    }
  }

  lemma DealOneGood(h: History, e: Entry, files: seq<nat>, min: nat)
    requires h.Valid() && Good(h, e) && FilesExist(h, files)
    ensures var d := DealOne(h, e, files, min); AllGood(h, d.passed) && AllGood(h, d.aside) && AllGood(h, d.left)
    ensures Size(DealOne(h, e, files, min).aside) < Size([e])
  {
    hide Good, Fits, StretchScore, LinesScore, Choice;
    GoodBounds(h, e);
    OneSize(e);
    EmptySums();
    var s := Choice(h, e, files);
    if s.mid.Some? {
      var t := ChoiceFits(h, e, files);
      FitsCuts(h, e, t);
      ScoredGood(h, s.mid.value);
      CutsGood(h, e, s, t.from);
      CutsCover(e, s, t.from);
      SizeConcat(Opt(s.pre), Opt(s.post));
      OneSize(s.mid.value);
    }
  }

  /** filter_small only deals a list out into two. */
  lemma {:induction false} OfSizeParts(h: History, es: seq<Entry>, min: nat)
    requires AllGood(h, es)
    ensures var s, l := OfSize(h, es, min, true), OfSize(h, es, min, false);
      && AllGood(h, s) && AllGood(h, l)
      && (forall e :: e in s ==> e.score == LinesScore(h, e) <= min)
      && Cover(s) + Cover(l) == Cover(es) && Pairs(s) + Pairs(l) == Pairs(es) && Size(s) + Size(l) == Size(es)
      && (forall q: nat :: Naming(s, q) + Naming(l, q) == Naming(es, q))
  {
    hide Good, LinesScore, Sum, Naming, Size;
    EmptySums();
    OfSizeNil(h, min);
    if es != [] {
      var e := es[0];
      assert Good(h, e);
      var e' := Scored(h, e);
      ScoredGood(h, e);
      OfSizeParts(h, es[1..], min);
      HeadOff(es);
      OneSum(e, FinalOf()); OneSum(e', FinalOf()); OneSum(e, PairOf()); OneSum(e', PairOf());
      OneSize(e); OneSize(e');
      var s, l := OfSize(h, es[1..], min, true), OfSize(h, es[1..], min, false);
      NamingCons(e', s); CoverCat([e'], s); SumConcat([e'], s, PairOf());
      NamingCons(e', l); CoverCat([e'], l); SumConcat([e'], l, PairOf());
      OfSizeStep(h, es, min);
    }
  }

  lemma {:induction false} OfSizeMine(h: History, es: seq<Entry>, min: nat, small: bool, o: nat)
    requires Mine(h, es, o)
    ensures Mine(h, OfSize(h, es, min, small), o)
  {
    hide Good, LinesScore;
    if es != [] {
      assert es[0] in es;
      OfSizeMine(h, es[1..], min, small, o);
      ScoredGood(h, es[0]);
    }
  }

  /** Entries that score no more than min. */
  ghost predicate AllSmall(h: History, es: seq<Entry>, min: nat)
  {
    forall e :: e in es ==> e.score == LinesScore(h, e) <= min
  }

  lemma LowerExist(h: History, files: seq<nat>, target: nat)
    requires h.Valid() && FilesLower(h, files, target)
    ensures FilesExist(h, files)
  {
  }

  lemma DealtNone(h: History, files: seq<nat>, min: nat, target: nat)
    requires FilesLower(h, files, target)
    ensures Dealt(h, [], Haul([], [], []), files, min, target)
  {
  }

  /** What a whole search means: it deals out the list, and what it puts aside is too small. */
  lemma {:induction false} SearchMeans(h: History, es: seq<Entry>, files: seq<nat>, min: nat, target: nat)
    requires h.Valid() && Mine(h, es, target) && FilesLower(h, files, target)
    ensures var r := Search(h, es, files, min);
      Dealt(h, es, r, files, min, target) && AllSmall(h, r.aside, min)
    decreases Size(es)
  {
    hide Good, Sum, Untakable, LinesScore, DealAll, OfSize, Passed, LowerOrigin, Carried;
    LowerExist(h, files, target);
    DealtNone(h, files, min, target);
    if es != [] {
      var d := DealAll(h, es, files, min);
      DealAllMeans(h, es, files, min, target);
      OfSizeParts(h, d.aside, min);
      OfSizeMine(h, d.aside, min, true, target);
      OfSizeMine(h, d.aside, min, false, target);
      var small, big := OfSize(h, d.aside, min, true), OfSize(h, d.aside, min, false);
      SearchMeans(h, big, files, min, target);
      SearchTwo(h, es, d, small, big, Search(h, big, files, min), files, min, target);
    }
  }

  /** A pass and the search of what it put aside, but for the small entries, are a search. */
  lemma SearchTwo(h: History, es: seq<Entry>, d: Haul, small: seq<Entry>, big: seq<Entry>, r: Haul,
                  files: seq<nat>, min: nat, target: nat)
    requires Dealt(h, es, d, files, min, target) && Mine(h, small, target) && Dealt(h, big, r, files, min, target)
    requires Cover(small) + Cover(big) == Cover(d.aside)
    requires Sum(small, PairOf()) + Pairs(big) == Pairs(d.aside)
    ensures Dealt(h, es, Haul(d.passed + r.passed, small + r.aside, d.left + r.left), files, min, target)
  {
    hide *;
    DealtParts(h, es, d, files, min, target);
    DealtParts(h, big, r, files, min, target);
    PassedConcat(h, d.passed, r.passed, files, min, target);
    MineConcat(h, small, r.aside, target);
    MineConcat(h, d.left, r.left, target);
    UntakableConcat(h, d.left, r.left, files, min);
    CoverCat(d.passed, r.passed); CoverCat(small, r.aside); CoverCat(d.left, r.left);
    SumConcat(small, r.aside, PairOf()); SumConcat(d.left, r.left, PairOf());
    SixParts(Cover(d.passed), Cover(d.left), Cover(small), Cover(r.passed), Cover(r.aside), Cover(r.left));
    FourIn(Sum(small, PairOf()), Pairs(r.aside), Pairs(d.left), Pairs(r.left), Pairs(big), Pairs(d.aside), Pairs(es));
    DealtWhole(h, es, Haul(d.passed + r.passed, small + r.aside, d.left + r.left), files, min, target);
  }

  lemma SixParts<T>(p: multiset<T>, l: multiset<T>, s: multiset<T>, p': multiset<T>, s': multiset<T>, l': multiset<T>)
    ensures (p + p') + (s + s') + (l + l') == p + (s + (p' + s' + l')) + l
  {
  }

  lemma FourIn<T>(s: multiset<T>, s': multiset<T>, l: multiset<T>, l': multiset<T>, b: multiset<T>, d: multiset<T>,
                  e: multiset<T>)
    requires s + b == d && s' + l' <= b && d + l <= e
    ensures (s + s') + (l + l') <= e
  {
    assert (s + s') + (l + l') == (s + (s' + l')) + l;
  }

  // ---------------------------------------------------------------------------------------------
  // The code

  /**
   What both searches do with an entry and its best split: pass the middle part if it scores enough, or put
   the entry with those that stay.
   */
  method Settle(sb: Scoreboard, e: Entry, split: Split, min: nat, ghost files: seq<nat>,
                blamed: seq<Entry>, unblamed: seq<Entry>, leftover: seq<Entry>)
    returns (blamed': seq<Entry>, unblamed': seq<Entry>, leftover': seq<Entry>)
    requires sb.Shape() && Good(sb.h, e) && Splits(sb.h, e, split, LastBest(sb.h, e, Matches(sb.h, e, files)))
    modifies sb`refcnt
    ensures sb.Shape()
    ensures var d := DealOne(sb.h, e, files, min);
      blamed' == blamed + d.passed && unblamed' == unblamed + d.aside && leftover' == d.left + leftover
    ensures forall o: nat :: o < |sb.refcnt| ==>
      sb.refcnt[o] == old(sb.refcnt)[o] + Held(blamed', unblamed', leftover', o)
                      - Held(blamed, unblamed, leftover, o) - One(e, o) - SplitRefs(split, o)
  {
    hide Naming, Score, Good, Sum, Size, LinesScore, LastBest, Matches, SplitAt, Fits;
    GoodBounds(sb.h, e);
    blamed', unblamed', leftover' := blamed, unblamed, leftover;
    var split' := split;
    var score := 0;
    SplitsSuspects(sb.h, e, split, LastBest(sb.h, e, Matches(sb.h, e, files)));
    if split.mid.Some? {
      GoodBounds(sb.h, split.mid.value);
      ScoredAgain(sb.h, split, Choice(sb.h, e, files));
      var m;
      score, m := BlameEntryScore(sb.h, split.mid.value);
      split' := split.(mid := Some(m));
      assert m in Opt(split'.mid) && split.mid.value in Opt(split.mid);
    }
    assert forall x :: x in Opt(split'.pre) + Opt(split'.mid) + Opt(split'.post) ==> x.suspect < |sb.refcnt|;
    OptNaming(split.pre); OptNaming(split.mid); OptNaming(split'.mid); OptNaming(split.post);
    if split'.mid.Some? && min < score {
      blamed', unblamed' := SplitBlame(sb, blamed, unblamed, split', e);
      NamingConcatAll(blamed, Opt(split'.mid));
      NamingConcatAll(unblamed, Opt(split.pre));
      NamingConcatAll(unblamed + Opt(split.pre), Opt(split.post));
      assert unblamed' == unblamed + (Opt(split.pre) + Opt(split.post));
    } else {
      NamingCons(e, leftover);
      leftover' := [e] + leftover;
    }
    DecSplit(sb, split');
  }

  /** Whether its score was cached or not, a middle part ends up the same. */
  lemma ScoredAgain(h: History, a: Split, b: Split)
    requires SameSplit(a, b) && a.mid.Some?
    ensures LinesScore(h, a.mid.value) == MidScore(h, b) && Scored(h, a.mid.value) == Scored(h, b.mid.value)
  {
  }

  /** One pass of find_move_in_parent's outer loop over the entries not yet tested. */
  method MovePass(sb: Scoreboard, parent: nat, blamed: seq<Entry>, unblamed: seq<Entry>, leftover: seq<Entry>)
    returns (blamed': seq<Entry>, unblamed': seq<Entry>, leftover': seq<Entry>)
    requires sb.Shape() && parent < |sb.h.file| && AllGood(sb.h, unblamed)
    modifies sb`refcnt
    ensures sb.Shape()
    ensures var d := DealAll(sb.h, unblamed, [parent], sb.move_score);
      blamed' == blamed + d.passed && unblamed' == d.aside && Rev(leftover') == Rev(leftover) + d.left
    ensures forall o: nat :: o < |sb.refcnt| ==>
      sb.refcnt[o] == old(sb.refcnt)[o] + Held(blamed', unblamed', leftover', o) - Held(blamed, unblamed, leftover, o)
  {
    hide Naming, Good, DealOne, DealAll, Splits, LastBest, Matches, Rev;
    blamed', unblamed', leftover' := blamed, [], leftover;
    var e := unblamed;
    DealNil(sb.h, [parent], sb.move_score);
    EmptySums();
    while e != []
      invariant sb.Shape() && AllGood(sb.h, e)
      invariant var d, a := DealAll(sb.h, unblamed, [parent], sb.move_score), DealAll(sb.h, e, [parent], sb.move_score);
        && blamed' + a.passed == blamed + d.passed && unblamed' + a.aside == d.aside
        && Rev(leftover') + a.left == Rev(leftover) + d.left
      invariant forall o: nat :: o < |sb.refcnt| ==>
        sb.refcnt[o] == old(sb.refcnt)[o] + Held(blamed', unblamed', leftover', o) + Naming(e, o)
                        - Held(blamed, unblamed, leftover, o)
    {
      var cur, next := e[0], e[1..];
      HeadOff(e);
      var split := FindCopyInBlob(sb, cur, parent);
      OneFile(sb.h, cur, parent);
      DealStep(sb.h, e, [parent], sb.move_score, blamed', unblamed', leftover');
      blamed', unblamed', leftover' := Settle(sb, cur, split, sb.move_score, [parent], blamed', unblamed', leftover');
      e := next;
    }
  }

  lemma OneFile(h: History, e: Entry, c: nat)
    ensures Matches(h, e, [c]) == MatchesIn(h, e, c)
  {
    assert [c][..0] == [];
  }

  lemma DealNil(h: History, files: seq<nat>, min: nat)
    ensures DealAll(h, [], files, min) == Haul([], [], [])
  {
  }

  lemma DealStep(h: History, es: seq<Entry>, files: seq<nat>, min: nat, b: seq<Entry>, u: seq<Entry>, l: seq<Entry>)
    requires es != []
    ensures var a, d, r := DealOne(h, es[0], files, min), DealAll(h, es, files, min), DealAll(h, es[1..], files, min);
      && (b + a.passed) + r.passed == b + d.passed && (u + a.aside) + r.aside == u + d.aside
      && Rev(a.left + l) + r.left == Rev(l) + d.left
  {
    hide DealOne, DealAll, Rev;
    var a, d, r := DealOne(h, es[0], files, min), DealAll(h, es, files, min), DealAll(h, es[1..], files, min);
    DealCons(h, es, files, min);
    Reassoc(b, a.passed, r.passed);
    Reassoc(u, a.aside, r.aside);
    Reassoc(Rev(l), a.left, r.left);
    RevStack(a.left, l);
  }

  lemma DealCons(h: History, es: seq<Entry>, files: seq<nat>, min: nat)
    requires es != []
    ensures var a, d, r := DealOne(h, es[0], files, min), DealAll(h, es, files, min), DealAll(h, es[1..], files, min);
      && d.passed == a.passed + r.passed && d.aside == a.aside + r.aside && d.left == a.left + r.left && |a.left| <= 1
  {
    hide Choice, LinesScore;
  }

  lemma RevStack(a: seq<Entry>, l: seq<Entry>)
    requires |a| <= 1
    ensures Rev(a + l) == Rev(l) + a
  {
    if a == [] {
      assert a + l == l;
    } else {
      assert (a + l)[1..] == l && [a[0]] == a;
    }
  }

  lemma HeadOff(es: seq<Entry>)
    requires es != []
    ensures Cover(es) == Cover([es[0]]) + Cover(es[1..]) && Pairs(es) == Pairs([es[0]]) + Pairs(es[1..])
    ensures Size(es) == Size([es[0]]) + Size(es[1..])
    ensures forall o: nat :: Naming(es, o) == One(es[0], o) + Naming(es[1..], o)
  {
    assert es == [es[0]] + es[1..];
    CoverCat([es[0]], es[1..]);
    SumConcat([es[0]], es[1..], PairOf());
  }

  lemma ShapeSizes(sb: Scoreboard)
    requires sb.Shape()
    ensures forall o :: 0 <= o < |sb.h.commit| ==> sb.h.commit[o] < |sb.h.rank|
    ensures |sb.h.file| == |sb.h.commit| == |sb.refcnt| == |sb.suspects|
  {
  }

  /** The references held by the target's list in hand, by the too small entries, and by what was passed. */
  ghost function HeldBy(blamed: seq<Entry>, toosmall: seq<Entry>, mine: seq<Entry>, o: nat): nat
  {
    Naming(blamed, o) + Naming(toosmall, o) + Naming(mine, o)
  }

  /** Where a search stands: what was found so far, and the search of what is not tested yet, make up the whole. */
  ghost predicate Underway(h: History, es: seq<Entry>, files: seq<nat>, min: nat, blamed: seq<Entry>,
                           toosmall: seq<Entry>,
                           blamed': seq<Entry>, toosmall': seq<Entry>, link: nat, unblamed: seq<Entry>,
                           leftover: seq<Entry>)
    requires h.Valid() && AllGood(h, es) && AllGood(h, unblamed) && FilesExist(h, files)
  {
    Partial(Search(h, es, files, min), Search(h, unblamed, files, min), blamed, toosmall, blamed', toosmall', link,
            Rev(leftover))
  }

  ghost predicate Partial(all: Haul, more: Haul, blamed: seq<Entry>, toosmall: seq<Entry>,
                          blamed': seq<Entry>, toosmall': seq<Entry>, link: nat, left: seq<Entry>)
  {
    && link <= |toosmall'| && toosmall'[link..] == toosmall
    && blamed' + more.passed == blamed + all.passed
    && toosmall'[..link] + more.aside == all.aside
    && left + more.left == all.left
  }

  lemma UnderwayStart(h: History, es: seq<Entry>, files: seq<nat>, min: nat, blamed: seq<Entry>, toosmall: seq<Entry>)
    requires h.Valid() && AllGood(h, es) && FilesExist(h, files)
    ensures Underway(h, es, files, min, blamed, toosmall, blamed, toosmall, 0, es, [])
  {
    hide Search;
  }

  /** One pass, and filter_small on what it put aside. */
  lemma UnderwayNext(h: History, es: seq<Entry>, files: seq<nat>, min: nat, blamed: seq<Entry>, toosmall: seq<Entry>,
                     b: seq<Entry>, small: seq<Entry>, link: nat, u: seq<Entry>, l: seq<Entry>)
    requires h.Valid() && AllGood(h, es) && AllGood(h, u) && FilesExist(h, files) && u != []
    requires Underway(h, es, files, min, blamed, toosmall, b, small, link, u, l)
    ensures var d := DealAll(h, u, files, min);
      var moved, u' := OfSize(h, d.aside, min, true), OfSize(h, d.aside, min, false);
      && AllGood(h, d.aside) && AllGood(h, u') && Size(u') < Size(u)
      && forall l' :: Rev(l') == Rev(l) + d.left ==>
        Underway(h, es, files, min, blamed, toosmall,
                 b + d.passed, small[..link] + moved + small[link..], link + |moved|, u', l')
  {
    hide Good, DealAll, OfSize, Rev, Search, Partial, Size;
    var d := DealAll(h, u, files, min);
    DealGood(h, u, files, min);
    OfSizeParts(h, d.aside, min);
    SearchStep(h, u, files, min);
    PartialNext(Search(h, es, files, min), d, OfSize(h, d.aside, min, true),
                Search(h, OfSize(h, d.aside, min, false), files, min), blamed, toosmall, b, small, link, Rev(l));
  }

  lemma PartialNext(all: Haul, d: Haul, moved: seq<Entry>, again: Haul, blamed: seq<Entry>, toosmall: seq<Entry>,
                    b: seq<Entry>, small: seq<Entry>, link: nat, left: seq<Entry>)
    requires Partial(all, Haul(d.passed + again.passed, moved + again.aside, d.left + again.left),
                     blamed, toosmall, b, small, link, left)
    ensures Partial(all, again, blamed, toosmall,
                    b + d.passed, small[..link] + moved + small[link..], link + |moved|, left + d.left)
  {
    var small' := small[..link] + moved + small[link..];
    assert small'[..link + |moved|] == small[..link] + moved && small'[link + |moved|..] == small[link..];
    Reassoc(b, d.passed, again.passed);
    Reassoc(small[..link], moved, again.aside);
    Reassoc(left, d.left, again.left);
  }

  lemma Reassoc(a: seq<Entry>, b: seq<Entry>, c: seq<Entry>)
    ensures a + (b + c) == (a + b) + c
  {
  }

  lemma SearchStep(h: History, es: seq<Entry>, files: seq<nat>, min: nat)
    requires h.Valid() && AllGood(h, es) && FilesExist(h, files) && es != []
    ensures var d := DealAll(h, es, files, min);
      AllGood(h, OfSize(h, d.aside, min, false)) && Search(h, es, files, min) ==
        (var again := Search(h, OfSize(h, d.aside, min, false), files, min);
         Haul(d.passed + again.passed, OfSize(h, d.aside, min, true) + again.aside, d.left + again.left))
  {
    hide DealAll, OfSize, Good;
    DealGood(h, es, files, min);
    OfSizeParts(h, DealAll(h, es, files, min).aside, min);
  }

  lemma UnderwayEnd(h: History, es: seq<Entry>, files: seq<nat>, min: nat, blamed: seq<Entry>, toosmall: seq<Entry>,
                    b: seq<Entry>, small: seq<Entry>, link: nat, l: seq<Entry>)
    requires h.Valid() && AllGood(h, es) && FilesExist(h, files)
    requires Underway(h, es, files, min, blamed, toosmall, b, small, link, [], l)
    ensures var r := Search(h, es, files, min);
      b == blamed + r.passed && small == r.aside + toosmall && Rev(l) + [] == r.left
  {
    var r := Search(h, es, files, min);
    assert Search(h, [], files, min) == Haul([], [], []);
    assert r.aside == small[..link] && small == small[..link] + small[link..];
  }

  lemma SmallNaming(small: seq<Entry>, link: nat, moved: seq<Entry>)
    requires link <= |small|
    ensures forall o: nat :: Naming(small[..link] + moved + small[link..], o) == Naming(small, o) + Naming(moved, o)
  {
    assert small == small[..link] + small[link..];
    NamingConcatAll(small[..link], small[link..]);
    NamingConcatAll(small[..link], moved);
    NamingConcatAll(small[..link] + moved, small[link..]);
  }

  ghost function Held4(blamed: seq<Entry>, toosmall: seq<Entry>, unblamed: seq<Entry>, leftover: seq<Entry>,
                       o: nat): nat
  {
    Naming(blamed, o) + Naming(toosmall, o) + Naming(unblamed, o) + Naming(leftover, o)
  }

  lemma HeldStart(blamed: seq<Entry>, toosmall: seq<Entry>, es: seq<Entry>)
    ensures forall o: nat :: Held4(blamed, toosmall, es, [], o) == HeldBy(blamed, toosmall, es, o)
    ensures forall o: nat, l :: Held4(blamed, toosmall, [], l, o) == HeldBy(blamed, toosmall, Rev(l) + [], o)
    ensures es == [] ==> Rev([]) + [] == es
  {
    forall l ensures forall o: nat :: Naming(Rev(l) + [], o) == Naming(l, o) { RevNames(l); }
  }

  /** One round of find_move_in_parent: a pass, and filter_small on what it put aside. */
  method MoveRound(sb: Scoreboard, parent: nat, blamed: seq<Entry>, toosmall: seq<Entry>, link: nat,
                   unblamed: seq<Entry>, leftover: seq<Entry>)
    returns (blamed': seq<Entry>, toosmall': seq<Entry>, link': nat, unblamed': seq<Entry>, leftover': seq<Entry>)
    requires sb.Shape() && parent < |sb.h.file| && AllGood(sb.h, unblamed) && link <= |toosmall|
    modifies sb`refcnt
    ensures sb.Shape()
    ensures var d := DealAll(sb.h, unblamed, [parent], sb.move_score);
      var moved := OfSize(sb.h, d.aside, sb.move_score, true);
      && blamed' == blamed + d.passed && Rev(leftover') == Rev(leftover) + d.left
      && toosmall' == toosmall[..link] + moved + toosmall[link..] && link' == link + |moved|
      && unblamed' == OfSize(sb.h, d.aside, sb.move_score, false)
    ensures forall o: nat :: o < |sb.refcnt| ==>
      sb.refcnt[o] == old(sb.refcnt)[o] + Held4(blamed', toosmall', unblamed', leftover', o)
                      - Held4(blamed, toosmall, unblamed, leftover, o)
  {
    hide Naming, Good, OfSize, DealAll, LinesScore, Rev;
    DealGood(sb.h, unblamed, [parent], sb.move_score);
    var aside;
    blamed', aside, leftover' := MovePass(sb, parent, blamed, unblamed, leftover);
    SmallNaming(toosmall, link, OfSize(sb.h, aside, sb.move_score, true));
    OfSizeParts(sb.h, aside, sb.move_score);
    toosmall', link', unblamed' := FilterSmall(sb.h, toosmall, link, aside, sb.move_score);
  }

  /**
   find_move_in_parent: entries of the target whose lines are found in the parent's file are passed, piece by
   piece.  Ends because every pass leaves fewer untested lines; no final line is lost or duplicated, and what
   stays with the target has no stretch worth passing.
   */
  method FindMoveInParent(sb: Scoreboard, blamed: seq<Entry>, toosmall: seq<Entry>, target: nat, parent: nat)
    returns (blamed': seq<Entry>, toosmall': seq<Entry>)
    requires sb.Shape() && target < |sb.suspects| && parent < |sb.h.commit| && LowerOrigin(sb.h, parent, target)
    requires Mine(sb.h, sb.suspects[target], target)
    modifies sb`refcnt, sb`suspects
    ensures sb.Shape()
    ensures var r := Search(sb.h, old(sb.suspects)[target], [parent], sb.move_score);
      && blamed' == blamed + r.passed && toosmall' == r.aside + toosmall
      && sb.suspects == old(sb.suspects)[target := r.left]
      && Dealt(sb.h, old(sb.suspects)[target], r, [parent], sb.move_score, target)
      && AllSmall(sb.h, r.aside, sb.move_score)
    ensures forall o: nat :: o < |sb.refcnt| ==>
      sb.refcnt[o] == old(sb.refcnt)[o] + HeldBy(blamed', toosmall', sb.suspects[target], o)
                      - HeldBy(blamed, toosmall, old(sb.suspects)[target], o)
  {
    hide Naming, Good, Size, OfSize, DealAll, Search, Underway, Dealt, LinesScore, Rev, LowerOrigin, FilesLower,
      AllSmall, Held, HeldBy, Held4;
    ShapeSizes(sb);
    OneLower(sb.h, parent, target);
    var unblamed, leftover := sb.suspects[target], [];
    ghost var es, files := unblamed, [parent];
    blamed', toosmall' := blamed, toosmall;
    SearchMeans(sb.h, es, files, sb.move_score, target);
    UnderwayStart(sb.h, es, files, sb.move_score, blamed, toosmall);
    HeldStart(blamed, toosmall, es);
    var link: nat := 0;
    if unblamed == [] {
      UnderwayEnd(sb.h, es, files, sb.move_score, blamed, toosmall, blamed', toosmall', link, leftover);
      NothingLeft(sb.suspects, target);
      return;
    }
    while true
      invariant sb.Shape() && sb.suspects == old(sb.suspects) && link <= |toosmall'|
      invariant unblamed != [] && AllGood(sb.h, unblamed)
      invariant Underway(sb.h, es, files, sb.move_score, blamed, toosmall, blamed', toosmall', link, unblamed, leftover)
      invariant forall o: nat :: o < |sb.refcnt| ==>
        sb.refcnt[o] == old(sb.refcnt)[o] + Held4(blamed', toosmall', unblamed, leftover, o)
                        - HeldBy(blamed, toosmall, es, o)
      decreases Size(unblamed)
    {
      UnderwayNext(sb.h, es, files, sb.move_score, blamed, toosmall, blamed', toosmall', link, unblamed, leftover);
      blamed', toosmall', link, unblamed, leftover := MoveRound(sb, parent, blamed', toosmall', link, unblamed,
                                                                leftover);
      if unblamed == [] { break; }
    }
    UnderwayEnd(sb.h, es, files, sb.move_score, blamed, toosmall, blamed', toosmall', link, leftover);
    HeldStart(blamed', toosmall', []);
    var suspects := ReverseBlame(leftover, []);
    sb.suspects := sb.suspects[target := suspects];
  }

  lemma OneLower(h: History, parent: nat, target: nat)
    requires h.Valid() && target < |h.commit| && LowerOrigin(h, parent, target)
    ensures FilesLower(h, [parent], target) && FilesExist(h, [parent])
  {
  }

  lemma NothingLeft(sus: seq<seq<Entry>>, target: nat)
    requires target < |sus| && sus[target] == []
    ensures sus == sus[target := Rev([]) + []]
  {
    assert Rev([]) + [] == [];
  }

  lemma RevNames(es: seq<Entry>)
    ensures forall o: nat :: Naming(Rev(es) + [], o) == Naming(es, o)
  {
    RevBag(es);
    assert Rev(es) + [] == Rev(es);
    BagCounts(Rev(es), es);
  }
}
