/**
 pass_blame as a whole (git-2.15.0/blame.c), with -M and -C: what it does to the suspect lists, as a function
 of them, and what that means.
 */
module BlamePass {
  import opened BlameEntries
  import opened BlameHistory
  import opened BlameCut
  import opened BlameDiff
  import opened BlameMove
  import opened BlameSearch
  import opened BlameCopy
  import opened BlameQueue
  import opened BlameMeaning

  /** The options of a run that say what is looked for. */
  datatype Options = Options(noWhole: bool, move: bool, copy: bool, moveScore: nat, copyScore: nat)

  ghost predicate GoodHaul(h: History, l: Haul) { AllGood(h, l.aside) && AllGood(h, l.left) }

  /** filter_small on what is left. */
  ghost function SmallAside(h: History, l: Haul, min: nat): (r: Haul)
    requires GoodHaul(h, l)
    ensures GoodHaul(h, r)
  {
    OfSizeParts(h, l.left, min);
    Haul(l.passed, OfSize(h, l.left, min, true) + l.aside, OfSize(h, l.left, min, false))
  }

  ghost function Further(l: Haul, r: Haul): Haul { Haul(l.passed + r.passed, r.aside + l.aside, r.left) }

  /** The search for moves, from parent i on. */
  ghost function MoveFrom(h: History, o: nat, sg: seq<Option<nat>>, i: nat, min: nat, l: Haul): (r: Haul)
    requires h.Valid() && o < |h.commit| && Scapegoats(h, o, sg) && GoodHaul(h, l)
    ensures GoodHaul(h, r)
    decreases |sg| - i
  {
    if i >= |sg| || l.left == [] then l
    else if sg[i].None? then MoveFrom(h, o, sg, i + 1, min, l)
    else MoveFrom(h, o, sg, i + 1, min, Further(l, Search(h, l.left, [sg[i].value], min)))
  }

  ghost function CopyFiles(h: History, o: nat, sg: seq<Option<nat>>, i: nat): (files: seq<nat>)
    requires h.Valid() && o < |h.commit| && Scapegoats(h, o, sg) && i < |sg|
    ensures FilesExist(h, files) && FilesLower(h, files, o)
  {
    var p := h.parents[h.commit[o]][i];
    TriedLower(h, p, o, sg[i]);
    Tried(h, p, o, sg[i])
  }

  /** The search for copies, from parent i on. */
  ghost function CopyFrom(h: History, o: nat, sg: seq<Option<nat>>, i: nat, min: nat, l: Haul): (r: Haul)
    requires h.Valid() && o < |h.commit| && Scapegoats(h, o, sg) && GoodHaul(h, l)
    ensures GoodHaul(h, r)
    decreases |sg| - i
  {
    if i >= |sg| || l.left == [] then l
    else CopyFrom(h, o, sg, i + 1, min, Further(l, Search(h, l.left, CopyFiles(h, o, sg, i), min)))
  }

  lemma MoveFromStep(h: History, o: nat, sg: seq<Option<nat>>, i: nat, min: nat, l: Haul)
    requires h.Valid() && o < |h.commit| && Scapegoats(h, o, sg) && GoodHaul(h, l)
    ensures AllGood(h, l.left) && (i >= |sg| || l.left == [] ==> MoveFrom(h, o, sg, i, min, l) == l)
    ensures i < |sg| && sg[i].None? ==> MoveFrom(h, o, sg, i, min, l) == MoveFrom(h, o, sg, i + 1, min, l)
    ensures i < |sg| && sg[i].Some? && l.left != [] ==> FilesExist(h, [sg[i].value])
    ensures i < |sg| && sg[i].Some? && l.left != [] ==>
      var f := Further(l, Search(h, l.left, [sg[i].value], min));
      GoodHaul(h, f) && MoveFrom(h, o, sg, i, min, l) == MoveFrom(h, o, sg, i + 1, min, f)
  {
    hide Good, Search;
    if l.left == [] && i < |sg| {
      assert MoveFrom(h, o, sg, i + 1, min, l) == l;
    }
  }

  lemma CopyFromStep(h: History, o: nat, sg: seq<Option<nat>>, i: nat, min: nat, l: Haul)
    requires h.Valid() && o < |h.commit| && Scapegoats(h, o, sg) && GoodHaul(h, l)
    ensures AllGood(h, l.left) && (i >= |sg| || l.left == [] ==> CopyFrom(h, o, sg, i, min, l) == l)
    ensures i < |sg| && l.left != [] ==>
      var f := Further(l, Search(h, l.left, CopyFiles(h, o, sg, i), min));
      GoodHaul(h, f) && CopyFrom(h, o, sg, i, min, l) == CopyFrom(h, o, sg, i + 1, min, f)
  {
    hide Good, Search, CopyFiles;
  }

  /** The threshold changes between the searches: what was set aside for the first may be worth the second. */
  ghost function Resized(h: History, op: Options, l: Haul): (r: Haul)
    requires GoodHaul(h, l)
    ensures GoodHaul(h, r)
  {
    if op.copyScore > op.moveScore then SmallAside(h, l, op.copyScore)
    else if op.copyScore < op.moveScore then
      MergeBag(l.left, l.aside);
      SmallAside(h, Haul(l.passed, [], Merge(l.left, l.aside)), op.copyScore)
    else l
  }

  ghost function Moved(h: History, op: Options, o: nat, sg: seq<Option<nat>>, es: seq<Entry>): (r: Haul)
    requires h.Valid() && o < |h.commit| && Scapegoats(h, o, sg) && AllGood(h, es)
    ensures GoodHaul(h, r)
  {
    if op.move then MoveFrom(h, o, sg, 0, op.moveScore, SmallAside(h, Haul([], [], es), op.moveScore))
    else Haul([], [], es)
  }

  /** What the searches of pass_blame make of the list es that the diffs have left with origin o. */
  ghost function SearchAll(h: History, op: Options, o: nat, sg: seq<Option<nat>>, es: seq<Entry>): (r: Haul)
    requires h.Valid() && o < |h.commit| && Scapegoats(h, o, sg) && AllGood(h, es)
    ensures GoodHaul(h, r)
  {
    var l := Moved(h, op, o, sg, es);
    if op.copy then CopyFrom(h, o, sg, 0, op.copyScore, Resized(h, op, l)) else l
  }

  /** pass_blame as a function of the suspect lists. */
  ghost function AfterBlame(h: History, op: Options, sus: seq<seq<Entry>>, o: nat): (r: seq<seq<Entry>>)
    requires h.Valid() && o < |sus| == |h.commit| && Suspects(h, sus[o], o)
    ensures |r| == |sus|
  {
    var after := AfterPass(h, op.noWhole, sus, o);
    AfterPassSuspects(h, op.noWhole, sus, o);
    if h.parents[h.commit[o]] == [] || PlanOf(h, op.noWhole, o).Whole? || after[o] == [] then after else
    var l := SearchAll(h, op, o, PlanOf(h, op.noWhole, o).sg, after[o]);
    Distributed(after, l.passed)[o := l.aside + l.left]
  }

  // ---------------------------------------------------------------------------------------------
  // What it means

  lemma PassOneSuspects(h: History, sus: seq<seq<Entry>>, o: nat, p: nat)
    requires h.Valid() && o < |sus| == |h.commit| && p < |sus| && p != o && Suspects(h, sus[o], o)
    ensures Suspects(h, PassOne(h, sus, o, p)[o], o)
  {
    hide Suspects, SentBy, KeptBy, Merge;
    if sus[o] != [] {
      InFile(h, sus[o], o);
      DiffLists(h, o, p, sus[o], h.diff(h.file[p], h.file[o]), 0, 0);
    }
  }

  lemma {:induction false} PassAllSuspects(h: History, sus: seq<seq<Entry>>, o: nat, sg: seq<Option<nat>>, i: nat)
    requires h.Valid() && o < |sus| == |h.commit| && Scapegoats(h, o, sg) && Suspects(h, sus[o], o)
    ensures Suspects(h, PassAll(h, sus, o, sg, i)[o], o)
    decreases |sg| - i
  {
    hide Suspects, PassOne;
    if i < |sg| {
      if sg[i].None? {
        PassAllSuspects(h, sus, o, sg, i + 1);
      } else {
        GoatAt(h, o, sg, i);
        PassOneSuspects(h, sus, o, sg[i].value);
        PassAllSuspects(h, PassOne(h, sus, o, sg[i].value), o, sg, i + 1);
      }
    }
  }

  lemma AfterPassSuspects(h: History, noWhole: bool, sus: seq<seq<Entry>>, o: nat)
    requires h.Valid() && o < |sus| == |h.commit| && Suspects(h, sus[o], o)
    ensures Suspects(h, AfterPass(h, noWhole, sus, o)[o], o) && AllGood(h, AfterPass(h, noWhole, sus, o)[o])
  {
    hide PlanOf, PassAll, HandAll, Merge, Good;
    if h.parents[h.commit[o]] != [] {
      match PlanOf(h, noWhole, o)
      case Whole(p) =>
      case Goats(sg) => PassAllSuspects(h, sus, o, sg, 0);
    }
  }

  /** An origin whose lines origin o may pass on in a search, and the score that they must exceed. */
  ghost predicate Searched(h: History, op: Options, o: nat, sg: seq<Option<nat>>, c: nat, min: nat)
    requires h.Valid() && o < |h.commit| && Scapegoats(h, o, sg)
  {
    || (op.move && min == op.moveScore && Some(c) in sg)
    || (op.copy && min == op.copyScore && exists i :: 0 <= i < |sg| && c in CopyFiles(h, o, sg, i))
  }

  /** An entry that a search may have passed: it names a file that is searched, and scores enough. */
  ghost predicate MayPass(h: History, op: Options, o: nat, sg: seq<Option<nat>>, e: Entry)
    requires h.Valid() && o < |h.commit| && Scapegoats(h, o, sg)
  {
    Good(h, e) && LowerOrigin(h, e.suspect, o)
    && exists min: nat :: Searched(h, op, o, sg, e.suspect, min) && min < LinesScore(h, e)
  }

  ghost predicate AllMayPass(h: History, op: Options, o: nat, sg: seq<Option<nat>>, es: seq<Entry>)
    requires h.Valid() && o < |h.commit| && Scapegoats(h, o, sg)
  {
    forall e :: e in es ==> MayPass(h, op, o, sg, e)
  }

  /**
   What the searches may do to a list: they pass only what they may pass; whatever is not passed still names
   the origin and the line it named, and no final line is lost or duplicated.
   */
  ghost predicate Hunted(h: History, op: Options, o: nat, sg: seq<Option<nat>>, es: seq<Entry>, l: Haul)
    requires h.Valid() && o < |h.commit| && Scapegoats(h, o, sg)
  {
    && AllMayPass(h, op, o, sg, l.passed) && Passed(h, l.passed, o) && Mine(h, l.aside, o) && Mine(h, l.left, o)
    && Cover3(l.passed, l.aside, l.left) == Cover(es)
    && Pairs(l.aside) + Pairs(l.left) <= Pairs(es)
  }

  lemma HuntStart(h: History, op: Options, o: nat, sg: seq<Option<nat>>, es: seq<Entry>)
    requires h.Valid() && o < |h.commit| && Scapegoats(h, o, sg) && Mine(h, es, o)
    ensures Hunted(h, op, o, sg, es, Haul([], [], es)) && GoodHaul(h, Haul([], [], es))
  {
    hide Good, Sum;
    EmptySums();
  }

  /** One more search, of files that may be searched. */
  lemma HuntFurther(h: History, op: Options, o: nat, sg: seq<Option<nat>>, es: seq<Entry>, l: Haul, r: Haul,
                    files: seq<nat>, min: nat)
    requires h.Valid() && o < |h.commit| && Scapegoats(h, o, sg)
    requires Hunted(h, op, o, sg, es, l) && Dealt(h, l.left, r, files, min, o)
    requires forall c :: c in files ==> Searched(h, op, o, sg, c, min)
    ensures Hunted(h, op, o, sg, es, Further(l, r))
  {
    hide *;
    HuntParts(h, op, o, sg, es, l);
    DealtParts(h, l.left, r, files, min, o);
    CarriedMayPass(h, op, o, sg, r.passed, files, min);
    PassConcat(h, op, o, sg, l.passed, r.passed);
    MineConcat(h, r.aside, l.aside, o);
    CoverCat(l.passed, r.passed); CoverCat(r.aside, l.aside);
    SumConcat(r.aside, l.aside, PairOf());
    var f := Further(l, r);
    assert f.passed == l.passed + r.passed && f.aside == r.aside + l.aside && f.left == r.left by { FurtherIs(l, r); }
    FiveParts(Cover(l.passed), Cover(l.aside), Cover(l.left), Cover(r.passed), Cover(r.aside), Cover(r.left));
    ThreeIn(Sum(l.aside, PairOf()), Sum(l.left, PairOf()), Sum(r.aside, PairOf()), Sum(r.left, PairOf()),
            Sum(es, PairOf()));
    HuntWhole(h, op, o, sg, es, f);
  }

  lemma FurtherIs(l: Haul, r: Haul)
    ensures Further(l, r) == Haul(l.passed + r.passed, r.aside + l.aside, r.left)
  {
  }

  lemma HuntParts(h: History, op: Options, o: nat, sg: seq<Option<nat>>, es: seq<Entry>, l: Haul)
    requires h.Valid() && o < |h.commit| && Scapegoats(h, o, sg) && Hunted(h, op, o, sg, es, l)
    ensures AllMayPass(h, op, o, sg, l.passed) && Passed(h, l.passed, o) && Mine(h, l.aside, o) && Mine(h, l.left, o)
    ensures Cover(l.passed) + Cover(l.aside) + Cover(l.left) == Cover(es)
    ensures Sum(l.aside, PairOf()) + Sum(l.left, PairOf()) <= Sum(es, PairOf())
  {
    hide AllMayPass, Passed, Mine, Sum;
  }

  lemma HuntWhole(h: History, op: Options, o: nat, sg: seq<Option<nat>>, es: seq<Entry>, l: Haul)
    requires h.Valid() && o < |h.commit| && Scapegoats(h, o, sg)
    requires AllMayPass(h, op, o, sg, l.passed) && Passed(h, l.passed, o) && Mine(h, l.aside, o) && Mine(h, l.left, o)
    requires Cover(l.passed) + Cover(l.aside) + Cover(l.left) == Cover(es)
    requires Sum(l.aside, PairOf()) + Sum(l.left, PairOf()) <= Sum(es, PairOf())
    ensures Hunted(h, op, o, sg, es, l)
  {
    hide AllMayPass, Passed, Mine, Sum;
  }

  lemma CarriedMayPass(h: History, op: Options, o: nat, sg: seq<Option<nat>>, es: seq<Entry>, files: seq<nat>, min: nat)
    requires h.Valid() && o < |h.commit| && Scapegoats(h, o, sg)
    requires Passed(h, es, o) && Carried(h, es, files, min)
    requires forall c :: c in files ==> Searched(h, op, o, sg, c, min)
    ensures AllMayPass(h, op, o, sg, es)
  {
    hide Good, LowerOrigin, Searched, LinesScore, Scapegoats;
    forall e | e in es ensures MayPass(h, op, o, sg, e) {
      assert Searched(h, op, o, sg, e.suspect, min);
    }
  }

  lemma PassConcat(h: History, op: Options, o: nat, sg: seq<Option<nat>>, a: seq<Entry>, b: seq<Entry>)
    requires h.Valid() && o < |h.commit| && Scapegoats(h, o, sg)
    requires AllMayPass(h, op, o, sg, a) && AllMayPass(h, op, o, sg, b) && Passed(h, a, o) && Passed(h, b, o)
    ensures AllMayPass(h, op, o, sg, a + b) && Passed(h, a + b, o)
  {
    hide Good, LowerOrigin, MayPass, Scapegoats;
  }

  lemma FiveParts<T>(p: multiset<T>, a: multiset<T>, m: multiset<T>, p': multiset<T>, a': multiset<T>, l': multiset<T>)
    ensures p' + a' + l' == m ==> (p + p') + (a' + a) + l' == p + a + m
  {
    assert (p + p') + (a' + a) + l' == p + a + (p' + a' + l');
  }

  lemma ThreeIn<T>(a: multiset<T>, m: multiset<T>, a': multiset<T>, l': multiset<T>, e: multiset<T>)
    requires a' + l' <= m && a + m <= e
    ensures (a' + a) + l' <= e
  {
    assert (a' + a) + l' == a + (a' + l');
  }

  /** filter_small keeps what was found, and where every line points. */
  lemma HuntSmall(h: History, op: Options, o: nat, sg: seq<Option<nat>>, es: seq<Entry>, l: Haul, min: nat)
    requires h.Valid() && o < |h.commit| && Scapegoats(h, o, sg) && Hunted(h, op, o, sg, es, l) && GoodHaul(h, l)
    ensures Hunted(h, op, o, sg, es, SmallAside(h, l, min))
  {
    hide *;
    HuntParts(h, op, o, sg, es, l);
    var s, b := OfSize(h, l.left, min, true), OfSize(h, l.left, min, false);
    assert SmallAside(h, l, min) == Haul(l.passed, s + l.aside, b) && AllGood(h, l.left) by { SmallIs(h, l, min); }
    OfSizeParts(h, l.left, min);
    OfSizeMine(h, l.left, min, true, o);
    OfSizeMine(h, l.left, min, false, o);
    MineConcat(h, s, l.aside, o);
    CoverCat(s, l.aside);
    SumConcat(s, l.aside, PairOf());
    assert Sum(s, PairOf()) + Sum(b, PairOf()) == Sum(l.left, PairOf()) by {
      PairsAre(s); PairsAre(b); PairsAre(l.left);
    }
    SmallParts(Cover(l.passed), Cover(s), Cover(l.aside), Cover(b), Cover(l.left));
    ThreeIn(Sum(l.aside, PairOf()), Sum(l.left, PairOf()), Sum(s, PairOf()), Sum(b, PairOf()), Sum(es, PairOf()));
    HuntWhole(h, op, o, sg, es, SmallAside(h, l, min));
  }

  lemma SmallIs(h: History, l: Haul, min: nat)
    requires GoodHaul(h, l)
    ensures SmallAside(h, l, min)
      == Haul(l.passed, OfSize(h, l.left, min, true) + l.aside, OfSize(h, l.left, min, false))
    ensures AllGood(h, l.left)
  {
  }

  lemma PairsAre(es: seq<Entry>)
    ensures Pairs(es) == Sum(es, PairOf())
  {
  }

  lemma SmallParts<T>(p: multiset<T>, s: multiset<T>, a: multiset<T>, b: multiset<T>, l: multiset<T>)
    requires s + b == l
    ensures p + (s + a) + b == p + a + l
  {
    assert p + (s + a) + b == p + a + (s + b);
  }

  /** Joining what was set aside to what is left again. */
  lemma HuntMerged(h: History, op: Options, o: nat, sg: seq<Option<nat>>, es: seq<Entry>, l: Haul)
    requires h.Valid() && o < |h.commit| && Scapegoats(h, o, sg) && Hunted(h, op, o, sg, es, l)
    ensures Hunted(h, op, o, sg, es, Haul(l.passed, [], Merge(l.left, l.aside)))
  {
    hide Good, Sum, Merge, AllMayPass, Passed, Scapegoats;
    var m := Merge(l.left, l.aside);
    MergeBag(l.left, l.aside);
    assert multiset(m) == multiset(l.left + l.aside);
    BagSum(m, l.left + l.aside, FinalOf());
    BagSum(m, l.left + l.aside, PairOf());
    SumConcat(l.left, l.aside, FinalOf());
    SumConcat(l.left, l.aside, PairOf());
    EmptySums();
    MergedParts(Cover(l.passed), Cover(l.aside), Cover(l.left), Cover(m));
    MergedParts(multiset{}, Pairs(l.aside), Pairs(l.left), Pairs(m));
  }

  lemma MergedParts<T>(p: multiset<T>, a: multiset<T>, l: multiset<T>, m: multiset<T>)
    requires m == l + a
    ensures p + multiset{} + m == p + a + l && multiset{} + m == a + l
  {
  }

  lemma {:induction false} MoveFromMeans(h: History, op: Options, o: nat, sg: seq<Option<nat>>, i: nat, es: seq<Entry>,
                                         l: Haul)
    requires h.Valid() && o < |h.commit| && Scapegoats(h, o, sg) && op.move
    requires Hunted(h, op, o, sg, es, l) && GoodHaul(h, l)
    ensures Hunted(h, op, o, sg, es, MoveFrom(h, o, sg, i, op.moveScore, l))
    decreases |sg| - i
  {
    hide Hunted, Search, Dealt, Good, Searched, Scapegoats;
    if i < |sg| && l.left != [] {
      if sg[i].None? {
        MoveFromMeans(h, op, o, sg, i + 1, es, l);
      } else {
        var files := [sg[i].value];
        GoatAt(h, o, sg, i);
        OneLower(h, sg[i].value, o);
        HuntParts(h, op, o, sg, es, l);
        SearchMeans(h, l.left, files, op.moveScore, o);
        assert sg[i] in sg;
        forall c | c in files ensures Searched(h, op, o, sg, c, op.moveScore) { GoatSearched(h, op, o, sg, i); }
        HuntFurther(h, op, o, sg, es, l, Search(h, l.left, files, op.moveScore), files, op.moveScore);
        MoveFromMeans(h, op, o, sg, i + 1, es, Further(l, Search(h, l.left, files, op.moveScore)));
      }
    }
  }

  lemma GoatSearched(h: History, op: Options, o: nat, sg: seq<Option<nat>>, i: nat)
    requires h.Valid() && o < |h.commit| && Scapegoats(h, o, sg) && op.move && i < |sg| && sg[i].Some?
    ensures Searched(h, op, o, sg, sg[i].value, op.moveScore)
  {
    assert sg[i] in sg;
  }

  lemma {:induction false} CopyFromMeans(h: History, op: Options, o: nat, sg: seq<Option<nat>>, i: nat, es: seq<Entry>,
                                         l: Haul)
    requires h.Valid() && o < |h.commit| && Scapegoats(h, o, sg) && op.copy
    requires Hunted(h, op, o, sg, es, l) && GoodHaul(h, l)
    ensures Hunted(h, op, o, sg, es, CopyFrom(h, o, sg, i, op.copyScore, l))
    decreases |sg| - i
  {
    hide Hunted, Search, Dealt, Good, Searched, Scapegoats, CopyFiles;
    if i < |sg| && l.left != [] {
      var files := CopyFiles(h, o, sg, i);
      HuntParts(h, op, o, sg, es, l);
      SearchMeans(h, l.left, files, op.copyScore, o);
      forall c | c in files ensures Searched(h, op, o, sg, c, op.copyScore) { CopySearched(h, op, o, sg, i, c); }
      HuntFurther(h, op, o, sg, es, l, Search(h, l.left, files, op.copyScore), files, op.copyScore);
      CopyFromMeans(h, op, o, sg, i + 1, es, Further(l, Search(h, l.left, files, op.copyScore)));
    }
  }

  lemma CopySearched(h: History, op: Options, o: nat, sg: seq<Option<nat>>, i: nat, c: nat)
    requires h.Valid() && o < |h.commit| && Scapegoats(h, o, sg) && op.copy && i < |sg| && c in CopyFiles(h, o, sg, i)
    ensures Searched(h, op, o, sg, c, op.copyScore)
  {
    hide CopyFiles, Scapegoats;
  }

  /** All that the searches of pass_blame do to the list that the diffs left. */
  lemma SearchAllMeans(h: History, op: Options, o: nat, sg: seq<Option<nat>>, es: seq<Entry>)
    requires h.Valid() && o < |h.commit| && Scapegoats(h, o, sg) && Mine(h, es, o) && AllGood(h, es)
    ensures Hunted(h, op, o, sg, es, SearchAll(h, op, o, sg, es))
  {
    hide Hunted, MoveFrom, CopyFrom, SmallAside, Good, Scapegoats, Merge;
    HuntStart(h, op, o, sg, es);
    var l := Haul([], [], es);
    if op.move {
      HuntSmall(h, op, o, sg, es, l, op.moveScore);
      l := SmallAside(h, l, op.moveScore);
      MoveFromMeans(h, op, o, sg, 0, es, l);
      l := MoveFrom(h, o, sg, 0, op.moveScore, l);
    }
    if op.copy {
      if op.copyScore > op.moveScore {
        HuntSmall(h, op, o, sg, es, l, op.copyScore);
      } else if op.copyScore < op.moveScore {
        MergeBag(l.left, l.aside);
        HuntMerged(h, op, o, sg, es, l);
        HuntSmall(h, op, o, sg, es, Haul(l.passed, [], Merge(l.left, l.aside)), op.copyScore);
      }
      CopyFromMeans(h, op, o, sg, 0, es, Resized(h, op, l));
    }
  }

  /** Without -M and -C the diffs are all there is. */
  lemma NoSearch(h: History, op: Options, sus: seq<seq<Entry>>, o: nat)
    requires h.Valid() && o < |sus| == |h.commit| && Suspects(h, sus[o], o) && !op.move && !op.copy
    ensures AfterBlame(h, op, sus, o) == AfterPass(h, op.noWhole, sus, o)
  {
    hide AfterPass, PlanOf, Suspects, Distributed;
    var after := AfterPass(h, op.noWhole, sus, o);
    AfterPassSuspects(h, op.noWhole, sus, o);
    NoneDistributed(after);
    assert [] + after[o] == after[o];
  }

  lemma NoneDistributed(sus: seq<seq<Entry>>)
    ensures Distributed(sus, []) == sus
  {
    forall o | 0 <= o < |sus| ensures Distributed(sus, [])[o] == sus[o] { assert Merge(sus[o], []) == sus[o]; }
  }

  /**
   With -M or -C, what the diffs pass to other origins is passed all the same, and on top of that exactly the
   entries that the searches passed, each to the origin it names.  What stays with origin o is what the diffs
   left, less the lines of those entries, and points where it did.
   */
  lemma AfterBlameMeans(h: History, op: Options, sus: seq<seq<Entry>>, o: nat) returns (passed: seq<Entry>)
    requires h.Valid() && o < |sus| == |h.commit| && Suspects(h, sus[o], o)
    ensures var after, r := AfterPass(h, op.noWhole, sus, o), AfterBlame(h, op, sus, o);
      && (forall p :: 0 <= p < |sus| && p != o ==> multiset(r[p]) == multiset(after[p]) + multiset(Group(passed, p)))
      && Cover(passed) + Cover(r[o]) == Cover(after[o]) && Pairs(r[o]) <= Pairs(after[o])
      && AllNaming(r[o], o)
    ensures passed != [] ==> PlanOf(h, op.noWhole, o).Goats? && h.parents[h.commit[o]] != []
    ensures passed != [] ==> AllMayPass(h, op, o, PlanOf(h, op.noWhole, o).sg, passed)
  {
    hide AfterPass, PlanOf, SearchAll, Distributed, Sum, Good, Sorted;
    var after := AfterPass(h, op.noWhole, sus, o);
    AfterPassSuspects(h, op.noWhole, sus, o);
    EmptySums();
    passed := [];
    if h.parents[h.commit[o]] != [] && PlanOf(h, op.noWhole, o).Goats? && after[o] != [] {
      var sg := PlanOf(h, op.noWhole, o).sg;
      var l := SearchAll(h, op, o, sg, after[o]);
      passed := l.passed;
      SearchAllMeans(h, op, o, sg, after[o]);
      forall p: nat | p < |sus|
        ensures multiset(Distributed(after, passed)[p]) == multiset(after[p]) + multiset(Group(passed, p)) {
        DistributedBags(after, passed, p);
      }
      CoverCat(l.aside, l.left);
      SumConcat(l.aside, l.left, PairOf());
      TripleCover(Cover(passed), Cover(l.aside), Cover(l.left));
    }
  }

  lemma TripleCover<T>(a: multiset<T>, b: multiset<T>, c: multiset<T>)
    ensures a + (b + c) == a + b + c
  {
  }
}
