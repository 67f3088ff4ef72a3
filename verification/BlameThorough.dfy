/**
 Searching with -M and -C leaves nothing behind (pass_blame in git-2.15.0/blame.c:1472-1519): whatever lines stay
 with the origin have been compared, since they were an entry of their own, with every file that is searched.
 */
module BlameThorough {
  import opened BlameEntries
  import opened BlameHistory
  import opened BlameCut
  import opened BlameDiff
  import opened BlameMove
  import opened BlameSearch
  import opened BlameCopy
  import opened BlameQueue
  import opened BlameMeaning
  import opened BlamePass

  /**
   The searches in their order: with -M the version found for each parent; then with -C, for each parent, what
   the tree diff with it names, but for the version that was found.
   */
  ghost predicate Looks(h: History, op: Options, o: nat, sg: seq<Option<nat>>, job: nat, c: nat)
    requires h.Valid() && o < |h.commit| && Scapegoats(h, o, sg)
  {
    if job < |sg| then op.move && sg[job] == Some(c)
    else
      var i := job - |sg|;
      op.copy && i < |sg| && c in h.copies(h.parents[h.commit[o]][i], o) && sg[i] != Some(c)
  }

  /** The score that a stretch must exceed to be passed in a search. */
  ghost function Needed(op: Options, sg: seq<Option<nat>>, job: nat): nat
  {
    if job < |sg| then op.moveScore else op.copyScore
  }

  /** In the searches from .. end, the entry had no stretch worth passing in common with any file. */
  ghost predicate Tested(h: History, op: Options, o: nat, sg: seq<Option<nat>>, from: nat, end: nat, e: Entry)
    requires h.Valid() && o < |h.commit| && Scapegoats(h, o, sg)
  {
    forall job: nat, c: nat :: from <= job < end && Looks(h, op, o, sg, job, c) ==>
      Untakable(h, e, c, Needed(op, sg, job))
  }

  /** The same final lines, and the same lines of the suspect. */
  ghost predicate SameSpan(e: Entry, x: Entry) { e.lno == x.lno && e.num_lines == x.num_lines && e.s_lno == x.s_lno }

  ghost predicate Within(e: Entry, x: Entry) { x.lno <= e.lno && e.lno + e.num_lines <= x.lno + x.num_lines }

  /** One of the two ends where the other one starts. */
  ghost predicate Adjoin(e: Entry, m: Entry) { e.lno + e.num_lines == m.lno || m.lno + m.num_lines == e.lno }

  /** The entry is what stayed of x beside a part m of it that was passed. */
  ghost predicate BesidePassed(e: Entry, m: Entry, x: Entry) { Within(e, x) && Within(m, x) && Adjoin(e, m) }

  /** An entry that some search has cut off: the part next to it was passed to a file of that search. */
  ghost predicate CutOff(h: History, op: Options, o: nat, sg: seq<Option<nat>>, passed: seq<Entry>, end: nat, e: Entry,
                         x: Entry, job: nat, m: Entry)
    requires h.Valid() && o < |h.commit| && Scapegoats(h, o, sg)
  {
    && job < end && m in passed && BesidePassed(e, m, x)
    && Looks(h, op, o, sg, job, m.suspect) && Needed(op, sg, job) < LinesScore(h, m)
    && Tested(h, op, o, sg, job, end, e)
  }

  /** Entry e is x and was tested in all searches, or was cut off x in one and tested in that and all later ones. */
  ghost predicate ComesFrom(h: History, op: Options, o: nat, sg: seq<Option<nat>>, passed: seq<Entry>, end: nat,
                            e: Entry, x: Entry)
    requires h.Valid() && o < |h.commit| && Scapegoats(h, o, sg)
  {
    || (SameSpan(e, x) && Tested(h, op, o, sg, 0, end, e))
    || (exists job: nat, m :: CutOff(h, op, o, sg, passed, end, e, x, job, m))
  }

  ghost predicate Accounted(h: History, op: Options, o: nat, sg: seq<Option<nat>>, es: seq<Entry>, passed: seq<Entry>,
                            end: nat, e: Entry)
    requires h.Valid() && o < |h.commit| && Scapegoats(h, o, sg)
  {
    exists x :: x in es && ComesFrom(h, op, o, sg, passed, end, e, x)
  }

  ghost predicate AllAccounted(h: History, op: Options, o: nat, sg: seq<Option<nat>>, es: seq<Entry>,
                               passed: seq<Entry>, end: nat, rest: seq<Entry>)
    requires h.Valid() && o < |h.commit| && Scapegoats(h, o, sg)
  {
    forall e :: e in rest ==> Accounted(h, op, o, sg, es, passed, end, e)
  }

  /** The searches so far, of the list es. */
  ghost predicate Thorough(h: History, op: Options, o: nat, sg: seq<Option<nat>>, es: seq<Entry>, l: Haul, end: nat)
    requires h.Valid() && o < |h.commit| && Scapegoats(h, o, sg)
  {
    AllAccounted(h, op, o, sg, es, l.passed, end, l.left) && AllAccounted(h, op, o, sg, es, l.passed, end, l.aside)
  }

  /** Nothing in the list scores more than min. */
  ghost predicate Little(h: History, es: seq<Entry>, min: nat) { forall e :: e in es ==> LinesScore(h, e) <= min }

  // ---------------------------------------------------------------------------------------------
  // What is too small

  lemma {:induction false} ScoreUpTo(image: File, lno: nat, k: nat, n: nat)
    requires k <= n && lno + n <= |image|
    ensures Score(image, lno, k) <= Score(image, lno, n)
  {
    if k < n { ScoreUpTo(image, lno, k, n - 1); }
  }

  lemma {:induction false} ScoreFrom(image: File, lno: nat, k: nat, n: nat)
    requires lno + k + n <= |image|
    ensures Score(image, lno + k, n) <= Score(image, lno, k + n)
  {
    if n > 0 { ScoreFrom(image, lno, k, n - 1); } else { ScoreUpTo(image, lno, 0, k); }
  }

  /** A stretch scores no more than the entry it is in. */
  lemma LittleUntakable(h: History, e: Entry, c: nat, min: nat)
    requires LinesScore(h, e) <= min
    ensures Untakable(h, e, c, min)
  {
    hide Score, MatchesIn;
    forall t | t in MatchesIn(h, e, c) ensures StretchScore(h, e, t) <= min {
      if 0 <= t.tlno < t.same <= e.num_lines && e.lno + e.num_lines <= |h.image| {
        ScoreFrom(h.image, e.lno, t.tlno, t.same - t.tlno);
        ScoreUpTo(h.image, e.lno, t.same, e.num_lines);
      }
    }
  }

  /** Whether an entry has a stretch worth passing is a matter of its final lines. */
  lemma SpanUntakable(h: History, e: Entry, x: Entry, c: nat, min: nat)
    requires e.lno == x.lno && e.num_lines == x.num_lines
    ensures Untakable(h, e, c, min) == Untakable(h, x, c, min)
  {
    hide Stretches;
    assert EntryLines(h, e) == EntryLines(h, x) && MatchesIn(h, e, c) == MatchesIn(h, x, c);
    forall t ensures StretchScore(h, e, t) == StretchScore(h, x, t) {}
  }

  lemma SpanTested(h: History, op: Options, o: nat, sg: seq<Option<nat>>, from: nat, end: nat, e: Entry, x: Entry)
    requires h.Valid() && o < |h.commit| && Scapegoats(h, o, sg) && SameSpan(e, x)
    ensures Tested(h, op, o, sg, from, end, e) == Tested(h, op, o, sg, from, end, x)
  {
    hide Untakable, Looks, Needed;
    forall c: nat, min: nat ensures Untakable(h, e, c, min) == Untakable(h, x, c, min) {
      SpanUntakable(h, e, x, c, min);
    }
  }

  lemma SpanAccounted(h: History, op: Options, o: nat, sg: seq<Option<nat>>, es: seq<Entry>, passed: seq<Entry>,
                      end: nat, e: Entry, y: Entry)
    requires h.Valid() && o < |h.commit| && Scapegoats(h, o, sg) && SameSpan(e, y)
    requires Accounted(h, op, o, sg, es, passed, end, y)
    ensures Accounted(h, op, o, sg, es, passed, end, e)
  {
    hide Tested, Looks, Scapegoats;
    var x :| x in es && ComesFrom(h, op, o, sg, passed, end, y, x);
    forall from: nat ensures Tested(h, op, o, sg, from, end, e) == Tested(h, op, o, sg, from, end, y) {
      SpanTested(h, op, o, sg, from, end, e, y);
    }
    if !(SameSpan(y, x) && Tested(h, op, o, sg, 0, end, y)) {
      var job: nat, m :| CutOff(h, op, o, sg, passed, end, y, x, job, m);
      assert CutOff(h, op, o, sg, passed, end, e, x, job, m);
    }
    assert ComesFrom(h, op, o, sg, passed, end, e, x);
  }

  // ---------------------------------------------------------------------------------------------
  // One search

  /** The entry is one of the list, or what stayed of one beside a part that was passed. */
  ghost predicate Rooted(es: seq<Entry>, passed: seq<Entry>, e: Entry)
  {
    exists x :: x in es && PartOf(passed, e, x)
  }

  ghost predicate PartOf(passed: seq<Entry>, e: Entry, x: Entry)
  {
    SameSpan(e, x) || exists m :: m in passed && BesidePassed(e, m, x)
  }

  ghost predicate AllRooted(es: seq<Entry>, passed: seq<Entry>, rest: seq<Entry>)
  {
    forall e :: e in rest ==> Rooted(es, passed, e)
  }

  lemma RootedTrans(es: seq<Entry>, p: seq<Entry>, fs: seq<Entry>, q: seq<Entry>, all: seq<Entry>, e: Entry)
    requires AllRooted(es, p, fs) && Rooted(fs, q, e)
    requires (forall m :: m in p ==> m in all) && forall m :: m in q ==> m in all
    ensures Rooted(es, all, e)
  {
    var y :| y in fs && PartOf(q, e, y);
    assert Rooted(es, p, y);
    var x :| x in es && PartOf(p, y, x);
    if SameSpan(e, y) {
      if !SameSpan(y, x) {
        var m :| m in p && BesidePassed(y, m, x);
        assert m in all && BesidePassed(e, m, x);
      }
    } else {
      var m :| m in q && BesidePassed(e, m, y);
      assert m in all && BesidePassed(e, m, x);
    }
    assert PartOf(all, e, x);
  }

  lemma DealOneRooted(h: History, e: Entry, files: seq<nat>, min: nat)
    requires h.Valid() && Good(h, e) && FilesExist(h, files)
    ensures var d := DealOne(h, e, files, min);
      AllRooted([e], d.passed, d.left) && AllRooted([e], d.passed, d.aside)
  {
    hide Good, Fits, LinesScore, Choice, FilesExist;
    var d, s := DealOne(h, e, files, min), Choice(h, e, files);
    if s.mid.Some? && min < MidScore(h, s) {
      var t := ChoiceFits(h, e, files);
      FitsCuts(h, e, t);
      CutsBeside(e, s, t.from, Scored(h, s.mid.value));
    } else {
      assert SameSpan(e, e) && e in [e] && PartOf([], e, e);
    }
  }

  lemma CutsBeside(e: Entry, s: Split, from: nat, m: Entry)
    requires s.mid.Some? && Cuts(e, s, from) && m.(score := 0) == s.mid.value.(score := 0)
    ensures AllRooted([e], [m], Opt(s.pre) + Opt(s.post))
  {
    forall p | p in Opt(s.pre) + Opt(s.post) ensures Rooted([e], [m], p) {
      assert BesidePassed(p, m, e) && m in [m] && e in [e] && PartOf([m], p, e);
    }
  }

  lemma {:induction false} DealAllRooted(h: History, es: seq<Entry>, files: seq<nat>, min: nat)
    requires h.Valid() && AllGood(h, es) && FilesExist(h, files)
    ensures var d := DealAll(h, es, files, min);
      AllRooted(es, d.passed, d.left) && AllRooted(es, d.passed, d.aside)
  {
    hide Good, DealOne, Rooted, FilesExist;
    if es != [] {
      assert es[0] in es;
      DealOneRooted(h, es[0], files, min);
      DealAllRooted(h, es[1..], files, min);
      var a, b, d := DealOne(h, es[0], files, min), DealAll(h, es[1..], files, min), DealAll(h, es, files, min);
      RootedMore([es[0]], a.passed, a.left, es, d.passed);
      RootedMore([es[0]], a.passed, a.aside, es, d.passed);
      RootedMore(es[1..], b.passed, b.left, es, d.passed);
      RootedMore(es[1..], b.passed, b.aside, es, d.passed);
    }
  }

  lemma RootedMore(es: seq<Entry>, p: seq<Entry>, rest: seq<Entry>, all: seq<Entry>, q: seq<Entry>)
    requires AllRooted(es, p, rest) && (forall x :: x in es ==> x in all) && forall m :: m in p ==> m in q
    ensures AllRooted(all, q, rest)
  {
    forall e | e in rest ensures Rooted(all, q, e) {
      assert Rooted(es, p, e);
      var x :| x in es && PartOf(p, e, x);
      assert PartOf(q, e, x);
    }
  }

  /** filter_small keeps the lines of the entries. */
  lemma {:induction false} OfSizeSpans(h: History, es: seq<Entry>, min: nat, small: bool)
    ensures forall e :: e in OfSize(h, es, min, small) ==> exists x :: x in es && SameSpan(e, x)
    ensures small ==> Little(h, OfSize(h, es, min, small), min)
    ensures forall x :: x in es && (LinesScore(h, x) <= min) == small ==> Scored(h, x) in OfSize(h, es, min, small)
  {
    hide LinesScore;
    if es != [] {
      OfSizeSpans(h, es[1..], min, small);
      var r := OfSize(h, es[1..], min, small);
      SpanScore(h, Scored(h, es[0]), es[0]);
      forall e | e in OfSize(h, es, min, small) ensures exists x :: x in es && SameSpan(e, x) {
        if e in r {
          var x :| x in es[1..] && SameSpan(e, x);
          assert x in es;
        } else {
          assert es[0] in es && SameSpan(e, es[0]);
        }
      }
    }
  }

  lemma SpanScore(h: History, e: Entry, x: Entry)
    requires e.lno == x.lno && e.num_lines == x.num_lines
    ensures LinesScore(h, e) == LinesScore(h, x)
  {
  }

  lemma SpansRooted(es: seq<Entry>, rest: seq<Entry>)
    requires forall e :: e in rest ==> exists x :: x in es && SameSpan(e, x)
    ensures forall p :: AllRooted(es, p, rest)
  {
    forall p, e | e in rest ensures Rooted(es, p, e) {
      var x :| x in es && SameSpan(e, x);
      assert PartOf(p, e, x);
    }
  }

  /** What a search leaves or puts aside is an entry of the list, or was next to something that it passed. */
  lemma {:induction false} SearchRooted(h: History, es: seq<Entry>, files: seq<nat>, min: nat)
    requires h.Valid() && AllGood(h, es) && FilesExist(h, files)
    ensures var r := Search(h, es, files, min);
      AllRooted(es, r.passed, r.left) && AllRooted(es, r.passed, r.aside)
    decreases Size(es)
  {
    hide Good, DealAll, OfSize, Rooted, FilesExist, Size;
    if es == [] {
      SearchNothing(h, files, min);
    } else {
      var d, r := DealAll(h, es, files, min), Search(h, es, files, min);
      DealAllRooted(h, es, files, min);
      DealGood(h, es, files, min);
      OfSizeParts(h, d.aside, min);
      SearchStep(h, es, files, min);
      var small, big := OfSize(h, d.aside, min, true), OfSize(h, d.aside, min, false);
      var again := Search(h, big, files, min);
      SearchRooted(h, big, files, min);
      OfSizeSpans(h, d.aside, min, true);
      OfSizeSpans(h, d.aside, min, false);
      SpansRooted(d.aside, small);
      SpansRooted(d.aside, big);
      AllRootedTrans(es, d.passed, d.aside, [], small, r.passed);
      AllRootedTrans(es, d.passed, d.aside, [], big, d.passed);
      AllRootedTrans(es, d.passed, big, again.passed, again.left, r.passed);
      AllRootedTrans(es, d.passed, big, again.passed, again.aside, r.passed);
      RootedMore(es, d.passed, d.left, es, r.passed);
    }
  }

  lemma SearchNothing(h: History, files: seq<nat>, min: nat)
    requires h.Valid() && FilesExist(h, files)
    ensures Search(h, [], files, min) == Haul([], [], [])
  {
  }

  lemma AllRootedTrans(es: seq<Entry>, p: seq<Entry>, fs: seq<Entry>, q: seq<Entry>, rest: seq<Entry>, all: seq<Entry>)
    requires AllRooted(es, p, fs) && AllRooted(fs, q, rest)
    requires (forall m :: m in p ==> m in all) && forall m :: m in q ==> m in all
    ensures AllRooted(es, all, rest)
  {
    hide Rooted;
    forall e | e in rest ensures Rooted(es, all, e) { RootedTrans(es, p, fs, q, all, e); }
  }

  // ---------------------------------------------------------------------------------------------
  // Search after search

  /** The files of one search, as the code lists them. */
  ghost predicate JobIs(h: History, op: Options, o: nat, sg: seq<Option<nat>>, job: nat, files: seq<nat>)
    requires h.Valid() && o < |h.commit| && Scapegoats(h, o, sg)
  {
    forall c: nat :: Looks(h, op, o, sg, job, c) <==> c in files
  }

  /** What is not searched for any more is small. */
  lemma TestedLittle(h: History, op: Options, o: nat, sg: seq<Option<nat>>, from: nat, end: nat, e: Entry)
    requires h.Valid() && o < |h.commit| && Scapegoats(h, o, sg)
    requires Tested(h, op, o, sg, from, end, e) && LinesScore(h, e) <= Needed(op, sg, end)
    ensures Tested(h, op, o, sg, from, end + 1, e)
  {
    hide Untakable, Looks, LinesScore, Needed;
    forall job: nat, c: nat | from <= job < end + 1 && Looks(h, op, o, sg, job, c)
      ensures Untakable(h, e, c, Needed(op, sg, job)) {
      if job == end { LittleUntakable(h, e, c, Needed(op, sg, end)); }
    }
  }

  /** One more search has had no stretch of the entry to pass. */
  lemma AccountedOn(h: History, op: Options, o: nat, sg: seq<Option<nat>>, es: seq<Entry>, passed: seq<Entry>,
                    end: nat, e: Entry, all: seq<Entry>)
    requires h.Valid() && o < |h.commit| && Scapegoats(h, o, sg) && Accounted(h, op, o, sg, es, passed, end, e)
    requires forall m :: m in passed ==> m in all
    requires forall c: nat :: Looks(h, op, o, sg, end, c) ==> Untakable(h, e, c, Needed(op, sg, end))
    ensures Accounted(h, op, o, sg, es, all, end + 1, e)
  {
    hide Untakable, Looks, Needed, Scapegoats;
    var x :| x in es && ComesFrom(h, op, o, sg, passed, end, e, x);
    forall from: nat | Tested(h, op, o, sg, from, end, e) ensures Tested(h, op, o, sg, from, end + 1, e) {}
    if !(SameSpan(e, x) && Tested(h, op, o, sg, 0, end, e)) {
      var job: nat, m :| CutOff(h, op, o, sg, passed, end, e, x, job, m);
      assert CutOff(h, op, o, sg, all, end + 1, e, x, job, m);
    }
    assert ComesFrom(h, op, o, sg, all, end + 1, e, x);
  }

  /** What a search leaves of an entry y is accounted for if y was. */
  lemma AccountedPart(h: History, op: Options, o: nat, sg: seq<Option<nat>>, es: seq<Entry>, passed: seq<Entry>,
                      end: nat, y: Entry, r: seq<Entry>, files: seq<nat>, e: Entry)
    requires h.Valid() && o < |h.commit| && Scapegoats(h, o, sg) && Accounted(h, op, o, sg, es, passed, end, y)
    requires PartOf(r, e, y) && JobIs(h, op, o, sg, end, files)
    requires forall m :: m in r ==> m.suspect in files && Needed(op, sg, end) < LinesScore(h, m)
    requires forall c: nat :: c in files ==> Untakable(h, e, c, Needed(op, sg, end))
    ensures Accounted(h, op, o, sg, es, passed + r, end + 1, e)
  {
    hide Untakable, Looks, Needed, Scapegoats;
    if SameSpan(e, y) {
      SpanAccounted(h, op, o, sg, es, passed, end, e, y);
      AccountedOn(h, op, o, sg, es, passed, end, e, passed + r);
    } else {
      var m :| m in r && BesidePassed(e, m, y);
      var x :| x in es && ComesFrom(h, op, o, sg, passed, end, y, x);
      assert Within(y, x);
      assert CutOff(h, op, o, sg, passed + r, end + 1, e, x, end, m);
      assert ComesFrom(h, op, o, sg, passed + r, end + 1, e, x);
    }
  }

  /** One more search. */
  lemma ThoroughFurther(h: History, op: Options, o: nat, sg: seq<Option<nat>>, es: seq<Entry>, l: Haul, end: nat,
                        files: seq<nat>, min: nat)
    requires h.Valid() && o < |h.commit| && Scapegoats(h, o, sg) && Mine(h, l.left, o) && FilesLower(h, files, o)
    requires Thorough(h, op, o, sg, es, l, end) && Little(h, l.aside, min)
    requires JobIs(h, op, o, sg, end, files) && min == Needed(op, sg, end) && FilesExist(h, files)
    ensures var f := Further(l, Search(h, l.left, files, min));
      Thorough(h, op, o, sg, es, f, end + 1) && Little(h, f.aside, min)
  {
    hide *;
    MineGood(h, l.left, o);
    var r := Search(h, l.left, files, min);
    var f := Further(l, r);
    SearchMeans(h, l.left, files, min, o);
    SearchFacts(h, l.left, r, files, min, o);
    SearchRooted(h, l.left, files, min);
    ThoroughParts(h, op, o, sg, es, l, end);
    FurtherIs(l, r);
    AsideOn(h, op, o, sg, es, l, end, r.passed);
    PartsOn(h, op, o, sg, es, l.passed, l.left, end, r.passed, r.left, files);
    PartsOn(h, op, o, sg, es, l.passed, l.left, end, r.passed, r.aside, files);
    AccountedTwo(h, op, o, sg, es, f.passed, end + 1, r.aside, l.aside);
    LittleTwo(h, r.aside, l.aside, min);
    ThoroughWhole(h, op, o, sg, es, f, end + 1);
  }

  lemma MineGood(h: History, es: seq<Entry>, o: nat)
    requires Mine(h, es, o)
    ensures AllGood(h, es)
  {
  }

  lemma SearchFacts(h: History, es: seq<Entry>, r: Haul, files: seq<nat>, min: nat, o: nat)
    requires Dealt(h, es, r, files, min, o) && AllSmall(h, r.aside, min)
    ensures Little(h, r.aside, min)
    ensures forall m :: m in r.passed ==> m.suspect in files && min < LinesScore(h, m)
    ensures forall e, c :: e in r.left && c in files ==> Untakable(h, e, c, min)
    ensures forall e, c: nat :: e in r.aside && c in files ==> Untakable(h, e, c, min)
  {
    hide Untakable, Sum, Passed, Mine, LinesScore;
    forall e, c: nat | e in r.aside && c in files ensures Untakable(h, e, c, min) { LittleUntakable(h, e, c, min); }
  }

  lemma ThoroughParts(h: History, op: Options, o: nat, sg: seq<Option<nat>>, es: seq<Entry>, l: Haul, end: nat)
    requires h.Valid() && o < |h.commit| && Scapegoats(h, o, sg) && Thorough(h, op, o, sg, es, l, end)
    ensures AllAccounted(h, op, o, sg, es, l.passed, end, l.left)
    ensures AllAccounted(h, op, o, sg, es, l.passed, end, l.aside)
  {
  }

  lemma ThoroughWhole(h: History, op: Options, o: nat, sg: seq<Option<nat>>, es: seq<Entry>, l: Haul, end: nat)
    requires h.Valid() && o < |h.commit| && Scapegoats(h, o, sg)
    requires AllAccounted(h, op, o, sg, es, l.passed, end, l.left)
    requires AllAccounted(h, op, o, sg, es, l.passed, end, l.aside)
    ensures Thorough(h, op, o, sg, es, l, end)
  {
  }

  lemma AccountedTwo(h: History, op: Options, o: nat, sg: seq<Option<nat>>, es: seq<Entry>, passed: seq<Entry>,
                     end: nat, a: seq<Entry>, b: seq<Entry>)
    requires h.Valid() && o < |h.commit| && Scapegoats(h, o, sg)
    requires AllAccounted(h, op, o, sg, es, passed, end, a) && AllAccounted(h, op, o, sg, es, passed, end, b)
    ensures AllAccounted(h, op, o, sg, es, passed, end, a + b)
  {
    hide Accounted, Scapegoats;
  }

  lemma LittleTwo(h: History, a: seq<Entry>, b: seq<Entry>, min: nat)
    requires Little(h, a, min) && Little(h, b, min)
    ensures Little(h, a + b, min)
  {
    hide LinesScore;
  }

  /** What was put aside is too small for this search too. */
  lemma AsideOn(h: History, op: Options, o: nat, sg: seq<Option<nat>>, es: seq<Entry>, l: Haul, end: nat,
                r: seq<Entry>)
    requires h.Valid() && o < |h.commit| && Scapegoats(h, o, sg)
    requires AllAccounted(h, op, o, sg, es, l.passed, end, l.aside) && Little(h, l.aside, Needed(op, sg, end))
    ensures AllAccounted(h, op, o, sg, es, l.passed + r, end + 1, l.aside)
  {
    hide Accounted, Looks, LinesScore, Scapegoats, Untakable, Needed;
    forall e | e in l.aside ensures Accounted(h, op, o, sg, es, l.passed + r, end + 1, e) {
      forall c: nat | Looks(h, op, o, sg, end, c) ensures Untakable(h, e, c, Needed(op, sg, end)) {
        LittleUntakable(h, e, c, Needed(op, sg, end));
      }
      AccountedOn(h, op, o, sg, es, l.passed, end, e, l.passed + r);
    }
  }

  lemma PartsOn(h: History, op: Options, o: nat, sg: seq<Option<nat>>, es: seq<Entry>, passed: seq<Entry>,
                had: seq<Entry>, end: nat, r: seq<Entry>, rest: seq<Entry>, files: seq<nat>)
    requires h.Valid() && o < |h.commit| && Scapegoats(h, o, sg)
    requires AllAccounted(h, op, o, sg, es, passed, end, had) && AllRooted(had, r, rest)
    requires JobIs(h, op, o, sg, end, files)
    requires forall m :: m in r ==> m.suspect in files && Needed(op, sg, end) < LinesScore(h, m)
    requires forall e, c: nat :: e in rest && c in files ==> Untakable(h, e, c, Needed(op, sg, end))
    ensures AllAccounted(h, op, o, sg, es, passed + r, end + 1, rest)
  {
    hide Accounted, JobIs, Scapegoats, Untakable, Needed, PartOf;
    forall e | e in rest ensures Accounted(h, op, o, sg, es, passed + r, end + 1, e) {
      assert Rooted(had, r, e);
      var y :| y in had && PartOf(r, e, y);
      AccountedPart(h, op, o, sg, es, passed, end, y, r, files, e);
    }
  }

  /** A search that is not made, since nothing is left or there is no file, changes nothing. */
  lemma ThoroughSkip(h: History, op: Options, o: nat, sg: seq<Option<nat>>, es: seq<Entry>, l: Haul, end: nat)
    requires h.Valid() && o < |h.commit| && Scapegoats(h, o, sg)
    requires Thorough(h, op, o, sg, es, l, end) && Little(h, l.aside, Needed(op, sg, end))
    requires l.left == [] || forall c: nat :: !Looks(h, op, o, sg, end, c)
    ensures Thorough(h, op, o, sg, es, l, end + 1)
  {
    hide Accounted, Looks, Scapegoats, Untakable, Needed, Little;
    AsideOn(h, op, o, sg, es, l, end, []);
    assert l.passed + [] == l.passed;
    forall e | e in l.left ensures Accounted(h, op, o, sg, es, l.passed, end + 1, e) {
      AccountedOn(h, op, o, sg, es, l.passed, end, e, l.passed);
    }
  }

  /** No search before `last` looks at anything. */
  lemma {:induction false} ThoroughIdle(h: History, op: Options, o: nat, sg: seq<Option<nat>>, es: seq<Entry>, l: Haul,
                                        end: nat, last: nat)
    requires h.Valid() && o < |h.commit| && Scapegoats(h, o, sg) && end <= last
    requires Thorough(h, op, o, sg, es, l, end)
    requires forall job: nat :: end <= job < last ==> Little(h, l.aside, Needed(op, sg, job))
    requires l.left == [] || forall job: nat, c: nat :: end <= job < last ==> !Looks(h, op, o, sg, job, c)
    ensures Thorough(h, op, o, sg, es, l, last)
    decreases last - end
  {
    hide Thorough, Looks, Scapegoats, Needed, Little;
    if end < last {
      ThoroughSkip(h, op, o, sg, es, l, end);
      ThoroughIdle(h, op, o, sg, es, l, end + 1, last);
    }
  }

  /** filter_small: what is put aside is accounted for as before, and small. */
  lemma ThoroughSmall(h: History, op: Options, o: nat, sg: seq<Option<nat>>, es: seq<Entry>, l: Haul, end: nat,
                      min: nat)
    requires h.Valid() && o < |h.commit| && Scapegoats(h, o, sg) && GoodHaul(h, l)
    requires Thorough(h, op, o, sg, es, l, end) && Little(h, l.aside, min)
    ensures Thorough(h, op, o, sg, es, SmallAside(h, l, min), end) && Little(h, SmallAside(h, l, min).aside, min)
  {
    hide Accounted, Scapegoats, OfSize, SmallAside, Little, Good;
    SmallIs(h, l, min);
    var s, b := OfSize(h, l.left, min, true), OfSize(h, l.left, min, false);
    OfSizeSpans(h, l.left, min, true);
    OfSizeSpans(h, l.left, min, false);
    SpansAccounted(h, op, o, sg, es, l.passed, end, l.left, s);
    SpansAccounted(h, op, o, sg, es, l.passed, end, l.left, b);
    LittleTwo(h, s, l.aside, min);
  }

  lemma SpansAccounted(h: History, op: Options, o: nat, sg: seq<Option<nat>>, es: seq<Entry>, passed: seq<Entry>,
                       end: nat, had: seq<Entry>, rest: seq<Entry>)
    requires h.Valid() && o < |h.commit| && Scapegoats(h, o, sg)
    requires AllAccounted(h, op, o, sg, es, passed, end, had)
    requires forall e :: e in rest ==> exists x :: x in had && SameSpan(e, x)
    ensures AllAccounted(h, op, o, sg, es, passed, end, rest)
  {
    hide Accounted, Scapegoats;
    forall e | e in rest ensures Accounted(h, op, o, sg, es, passed, end, e) {
      var y :| y in had && SameSpan(e, y);
      SpanAccounted(h, op, o, sg, es, passed, end, e, y);
    }
  }

  lemma GoatJob(h: History, op: Options, o: nat, sg: seq<Option<nat>>, i: nat)
    requires h.Valid() && o < |h.commit| && Scapegoats(h, o, sg) && i < |sg| && op.move
    ensures sg[i].Some? ==> JobIs(h, op, o, sg, i, [sg[i].value])
    ensures sg[i].None? ==> forall c: nat :: !Looks(h, op, o, sg, i, c)
    ensures Needed(op, sg, i) == op.moveScore
  {
  }

  lemma CopyJob(h: History, op: Options, o: nat, sg: seq<Option<nat>>, i: nat)
    requires h.Valid() && o < |h.commit| && Scapegoats(h, o, sg) && i < |sg| && op.copy
    ensures JobIs(h, op, o, sg, |sg| + i, CopyFiles(h, o, sg, i)) && Needed(op, sg, |sg| + i) == op.copyScore
  {
    OthersAre(h.copies(h.parents[h.commit[o]][i], o), sg[i]);
  }

  /** What is known of the lists between two searches. */
  ghost predicate Midway(h: History, op: Options, o: nat, sg: seq<Option<nat>>, es: seq<Entry>, l: Haul, end: nat,
                         min: nat)
    requires h.Valid() && o < |h.commit| && Scapegoats(h, o, sg)
  {
    GoodHaul(h, l) && Hunted(h, op, o, sg, es, l) && Thorough(h, op, o, sg, es, l, end) && Little(h, l.aside, min)
  }

  /** One search further. */
  lemma MidwayFurther(h: History, op: Options, o: nat, sg: seq<Option<nat>>, es: seq<Entry>, l: Haul, end: nat,
                      min: nat, files: seq<nat>)
    requires h.Valid() && o < |h.commit| && Scapegoats(h, o, sg) && Midway(h, op, o, sg, es, l, end, min)
    requires FilesLower(h, files, o) && JobIs(h, op, o, sg, end, files) && min == Needed(op, sg, end)
    requires forall c :: c in files ==> Searched(h, op, o, sg, c, min)
    ensures AllGood(h, l.left) && FilesExist(h, files)
    ensures Midway(h, op, o, sg, es, Further(l, Search(h, l.left, files, min)), end + 1, min)
  {
    hide Thorough, Hunted, Search, Dealt, Good, Searched, Scapegoats, Little, Looks, Needed, JobIs, FilesLower,
      FilesExist;
    LowerExist(h, files, o);
    HuntParts(h, op, o, sg, es, l);
    ThoroughFurther(h, op, o, sg, es, l, end, files, min);
    SearchMeans(h, l.left, files, min, o);
    HuntFurther(h, op, o, sg, es, l, Search(h, l.left, files, min), files, min);
  }

  /** No search further is made. */
  lemma MidwayIdle(h: History, op: Options, o: nat, sg: seq<Option<nat>>, es: seq<Entry>, l: Haul, end: nat,
                   last: nat, min: nat)
    requires h.Valid() && o < |h.commit| && Scapegoats(h, o, sg) && Midway(h, op, o, sg, es, l, end, min)
    requires end <= last && forall job: nat :: end <= job < last ==> Needed(op, sg, job) == min
    requires l.left == [] || forall job: nat, c: nat :: end <= job < last ==> !Looks(h, op, o, sg, job, c)
    ensures Midway(h, op, o, sg, es, l, last, min)
  {
    hide Thorough, Hunted, Good, Scapegoats, Little, Looks, Needed;
    ThoroughIdle(h, op, o, sg, es, l, end, last);
  }

  lemma GoatJobs(h: History, op: Options, o: nat, sg: seq<Option<nat>>, i: nat)
    requires h.Valid() && o < |h.commit| && Scapegoats(h, o, sg) && op.move && i < |sg| && sg[i].Some?
    ensures var files := [sg[i].value];
      FilesLower(h, files, o) && forall c :: c in files ==> Searched(h, op, o, sg, c, op.moveScore)
  {
    GoatAt(h, o, sg, i);
    OneLower(h, sg[i].value, o);
    GoatSearched(h, op, o, sg, i);
  }

  lemma {:induction false} MovesThorough(h: History, op: Options, o: nat, sg: seq<Option<nat>>, i: nat, es: seq<Entry>,
                                         l: Haul)
    requires h.Valid() && o < |h.commit| && Scapegoats(h, o, sg) && op.move && i <= |sg|
    requires Midway(h, op, o, sg, es, l, i, op.moveScore) && GoodHaul(h, l)
    ensures Midway(h, op, o, sg, es, MoveFrom(h, o, sg, i, op.moveScore, l), |sg|, op.moveScore)
    decreases |sg| - i
  {
    hide *;
    forall job: nat | i <= job < |sg| ensures Needed(op, sg, job) == op.moveScore { GoatJob(h, op, o, sg, job); }
    MoveFromStep(h, o, sg, i, op.moveScore, l);
    if i == |sg| || l.left == [] {
      MidwayIdle(h, op, o, sg, es, l, i, |sg|, op.moveScore);
    } else {
      GoatJob(h, op, o, sg, i);
      if sg[i].None? {
        MidwayIdle(h, op, o, sg, es, l, i, i + 1, op.moveScore);
        MovesThorough(h, op, o, sg, i + 1, es, l);
      } else {
        GoatJobs(h, op, o, sg, i);
        MidwayFurther(h, op, o, sg, es, l, i, op.moveScore, [sg[i].value]);
        MovesThorough(h, op, o, sg, i + 1, es, Further(l, Search(h, l.left, [sg[i].value], op.moveScore)));
      }
    }
  }

  lemma CopyJobs(h: History, op: Options, o: nat, sg: seq<Option<nat>>, i: nat)
    requires h.Valid() && o < |h.commit| && Scapegoats(h, o, sg) && op.copy && i < |sg|
    ensures var files := CopyFiles(h, o, sg, i);
      FilesLower(h, files, o) && forall c :: c in files ==> Searched(h, op, o, sg, c, op.copyScore)
  {
    hide CopyFiles, FilesLower, Searched, Scapegoats;
    forall c | c in CopyFiles(h, o, sg, i) ensures Searched(h, op, o, sg, c, op.copyScore) {
      CopySearched(h, op, o, sg, i, c);
    }
  }

  lemma {:induction false} CopiesThorough(h: History, op: Options, o: nat, sg: seq<Option<nat>>, i: nat, es: seq<Entry>,
                                          l: Haul)
    requires h.Valid() && o < |h.commit| && Scapegoats(h, o, sg) && op.copy && i <= |sg|
    requires Midway(h, op, o, sg, es, l, |sg| + i, op.copyScore) && GoodHaul(h, l)
    ensures Midway(h, op, o, sg, es, CopyFrom(h, o, sg, i, op.copyScore, l), 2 * |sg|, op.copyScore)
    decreases |sg| - i
  {
    hide *;
    forall job: nat | |sg| + i <= job < 2 * |sg| ensures Needed(op, sg, job) == op.copyScore {
      CopyJob(h, op, o, sg, job - |sg|);
    }
    CopyFromStep(h, o, sg, i, op.copyScore, l);
    if i == |sg| || l.left == [] {
      MidwayIdle(h, op, o, sg, es, l, |sg| + i, 2 * |sg|, op.copyScore);
    } else {
      CopyJob(h, op, o, sg, i);
      CopyJobs(h, op, o, sg, i);
      MidwayFurther(h, op, o, sg, es, l, |sg| + i, op.copyScore, CopyFiles(h, o, sg, i));
      CopiesThorough(h, op, o, sg, i + 1, es,
                     Further(l, Search(h, l.left, CopyFiles(h, o, sg, i), op.copyScore)));
    }
  }

  lemma ThoroughStart(h: History, op: Options, o: nat, sg: seq<Option<nat>>, es: seq<Entry>)
    requires h.Valid() && o < |h.commit| && Scapegoats(h, o, sg)
    ensures Thorough(h, op, o, sg, es, Haul([], [], es), 0)
    ensures !op.move ==> Thorough(h, op, o, sg, es, Haul([], [], es), |sg|)
    ensures forall min: nat :: Little(h, [], min)
  {
    hide Scapegoats, Untakable, LinesScore;
    forall e, end: nat | e in es && (end == 0 || (end == |sg| && !op.move))
      ensures Accounted(h, op, o, sg, es, [], end, e) {
      assert SameSpan(e, e) && Tested(h, op, o, sg, 0, end, e);
      assert ComesFrom(h, op, o, sg, [], end, e, e);
    }
  }

  lemma ThoroughMoved(h: History, op: Options, o: nat, sg: seq<Option<nat>>, es: seq<Entry>)
    requires h.Valid() && o < |h.commit| && Scapegoats(h, o, sg) && Mine(h, es, o) && AllGood(h, es)
    ensures var l := Moved(h, op, o, sg, es);
      && Thorough(h, op, o, sg, es, l, |sg|) && Hunted(h, op, o, sg, es, l)
      && (if op.move then Little(h, l.aside, op.moveScore) else l.aside == [])
  {
    hide Thorough, Hunted, MoveFrom, SmallAside, Good, Scapegoats, Little;
    HuntStart(h, op, o, sg, es);
    ThoroughStart(h, op, o, sg, es);
    var l := Haul([], [], es);
    if op.move {
      HuntSmall(h, op, o, sg, es, l, op.moveScore);
      ThoroughSmall(h, op, o, sg, es, l, 0, op.moveScore);
      l := SmallAside(h, l, op.moveScore);
      MovesThorough(h, op, o, sg, 0, es, l);
    }
  }

  lemma LittleLess(h: History, es: seq<Entry>, min: nat, more: nat)
    requires Little(h, es, min) && min <= more
    ensures Little(h, es, more)
  {
  }

  lemma ThoroughResized(h: History, op: Options, o: nat, sg: seq<Option<nat>>, es: seq<Entry>, l: Haul)
    requires h.Valid() && o < |h.commit| && Scapegoats(h, o, sg) && GoodHaul(h, l)
    requires Thorough(h, op, o, sg, es, l, |sg|) && Hunted(h, op, o, sg, es, l)
    requires if op.move then Little(h, l.aside, op.moveScore) else l.aside == []
    ensures var r := Resized(h, op, l);
      Thorough(h, op, o, sg, es, r, |sg|) && Hunted(h, op, o, sg, es, r) && Little(h, r.aside, op.copyScore)
  {
    hide Thorough, Hunted, SmallAside, Good, Scapegoats, Little, Merge;
    assert forall min: nat :: Little(h, [], min) by { ThoroughStart(h, op, o, sg, es); }
    if op.copyScore >= op.moveScore {
      if op.move { LittleLess(h, l.aside, op.moveScore, op.copyScore); }
      ThoroughSmall(h, op, o, sg, es, l, |sg|, op.copyScore);
      HuntSmall(h, op, o, sg, es, l, op.copyScore);
    } else {
      var m := Haul(l.passed, [], Merge(l.left, l.aside));
      MergeBag(l.left, l.aside);
      HuntMerged(h, op, o, sg, es, l);
      ThoroughMerged(h, op, o, sg, es, l, |sg|);
      ThoroughSmall(h, op, o, sg, es, m, |sg|, op.copyScore);
      HuntSmall(h, op, o, sg, es, m, op.copyScore);
    }
  }

  lemma ThoroughMerged(h: History, op: Options, o: nat, sg: seq<Option<nat>>, es: seq<Entry>, l: Haul, end: nat)
    requires h.Valid() && o < |h.commit| && Scapegoats(h, o, sg) && Thorough(h, op, o, sg, es, l, end)
    ensures Thorough(h, op, o, sg, es, Haul(l.passed, [], Merge(l.left, l.aside)), end)
  {
    hide Accounted, Scapegoats, Merge;
    var m := Merge(l.left, l.aside);
    MergeBag(l.left, l.aside);
    forall e | e in m ensures e in l.left || e in l.aside { assert e in multiset(m); }
  }

  /** Whatever the searches of pass_blame leave of the list es is accounted for, in all searches. */
  lemma SearchThorough(h: History, op: Options, o: nat, sg: seq<Option<nat>>, es: seq<Entry>)
    requires h.Valid() && o < |h.commit| && Scapegoats(h, o, sg) && Mine(h, es, o) && AllGood(h, es)
    ensures var l := SearchAll(h, op, o, sg, es);
      forall e :: e in l.left + l.aside ==> Accounted(h, op, o, sg, es, l.passed, 2 * |sg|, e)
  {
    hide Accounted, Hunted, Good, Scapegoats, Moved, CopyFrom, Resized, Little;
    var l := Moved(h, op, o, sg, es);
    ThoroughMoved(h, op, o, sg, es);
    if op.copy {
      ThoroughResized(h, op, o, sg, es, l);
      CopiesThorough(h, op, o, sg, 0, es, Resized(h, op, l));
    } else {
      NoCopies(h, op, o, sg);
      NoMoreSearches(h, op, o, sg, es, l);
    }
  }

  lemma NoCopies(h: History, op: Options, o: nat, sg: seq<Option<nat>>)
    requires h.Valid() && o < |h.commit| && Scapegoats(h, o, sg) && !op.copy
    ensures forall job: nat, c: nat :: |sg| <= job ==> !Looks(h, op, o, sg, job, c)
  {
  }

  lemma NoMoreSearches(h: History, op: Options, o: nat, sg: seq<Option<nat>>, es: seq<Entry>, l: Haul)
    requires h.Valid() && o < |h.commit| && Scapegoats(h, o, sg)
    requires forall job: nat, c: nat :: |sg| <= job ==> !Looks(h, op, o, sg, job, c)
    requires Thorough(h, op, o, sg, es, l, |sg|)
    ensures Thorough(h, op, o, sg, es, l, 2 * |sg|)
  {
    hide Scapegoats, Looks, Untakable, Needed;
    forall e | e in l.left + l.aside ensures Accounted(h, op, o, sg, es, l.passed, 2 * |sg|, e) {
      assert Accounted(h, op, o, sg, es, l.passed, |sg|, e);
      var x :| x in es && ComesFrom(h, op, o, sg, l.passed, |sg|, e, x);
      forall from: nat | Tested(h, op, o, sg, from, |sg|, e) ensures Tested(h, op, o, sg, from, 2 * |sg|, e) {}
      if !(SameSpan(e, x) && Tested(h, op, o, sg, 0, |sg|, e)) {
        var job: nat, m :| CutOff(h, op, o, sg, l.passed, |sg|, e, x, job, m);
        assert CutOff(h, op, o, sg, l.passed, 2 * |sg|, e, x, job, m);
      }
      assert ComesFrom(h, op, o, sg, l.passed, 2 * |sg|, e, x);
    }
  }

  /**
   pass_blame as a whole: besides what the diffs leave and what the searches pass, every entry that stays with the
   origin is one that the diffs left or a part of one, and has been compared with all that was searched since.
   */
  lemma PassThorough(h: History, op: Options, sus: seq<seq<Entry>>, o: nat) returns (passed: seq<Entry>)
    requires h.Valid() && o < |sus| == |h.commit| && Suspects(h, sus[o], o)
    requires h.parents[h.commit[o]] != [] && PlanOf(h, op.noWhole, o).Goats?
    ensures var after, r := AfterPass(h, op.noWhole, sus, o), AfterBlame(h, op, sus, o);
      var sg := PlanOf(h, op.noWhole, o).sg;
      && Scapegoats(h, o, sg) && AllMayPass(h, op, o, sg, passed) && AllGood(h, passed) && AllNaming(r[o], o)
      && (forall p :: 0 <= p < |sus| && p != o ==> multiset(r[p]) == multiset(after[p]) + multiset(Group(passed, p)))
      && forall e :: e in r[o] ==> Accounted(h, op, o, sg, after[o], passed, 2 * |sg|, e)
  {
    hide AfterPass, PlanOf, SearchAll, Distributed, Sum, Good, Sorted, Accounted, Hunted, Scapegoats;
    var after, sg := AfterPass(h, op.noWhole, sus, o), PlanOf(h, op.noWhole, o).sg;
    AfterPassSuspects(h, op.noWhole, sus, o);
    passed := [];
    if after[o] != [] {
      var l := SearchAll(h, op, o, sg, after[o]);
      passed := l.passed;
      SearchAllMeans(h, op, o, sg, after[o]);
      HuntParts(h, op, o, sg, after[o], l);
      SearchThorough(h, op, o, sg, after[o]);
      forall p: nat | p < |sus|
        ensures multiset(Distributed(after, passed)[p]) == multiset(after[p]) + multiset(Group(passed, p)) {
        DistributedBags(after, passed, p);
      }
    }
  }

  /** No final line is in two entries of the list. */
  ghost predicate NoneTwice(es: seq<Entry>)
  {
    forall x, y :: x in es && y in es && x.lno < y.lno + y.num_lines && y.lno < x.lno + x.num_lines ==> SameSpan(x, y)
  }

  /** An entry that comes out whole has nothing worth passing in common with any file that is searched. */
  lemma WholeTested(h: History, op: Options, o: nat, sg: seq<Option<nat>>, es: seq<Entry>, passed: seq<Entry>, end: nat,
                    e: Entry, x: Entry)
    requires h.Valid() && o < |h.commit| && Scapegoats(h, o, sg) && NoneTwice(es) && AllGood(h, passed)
    requires Accounted(h, op, o, sg, es, passed, end, e) && x in es && SameSpan(e, x) && 0 < e.num_lines
    ensures Tested(h, op, o, sg, 0, end, e)
  {
    hide Tested, Looks, Scapegoats, Good;
    var y :| y in es && ComesFrom(h, op, o, sg, passed, end, e, y);
    if !(SameSpan(e, y) && Tested(h, op, o, sg, 0, end, e)) {
      var job: nat, m :| CutOff(h, op, o, sg, passed, end, e, y, job, m);
      GoodBounds(h, m);
    }
  }

  // ---------------------------------------------------------------------------------------------
  // A whole run

  /** Beside the entry lies a part m that a search passed; the entry was tested in that search and all later ones. */
  ghost predicate LeftBeside(h: History, op: Options, o: nat, sg: seq<Option<nat>>, e: Entry, job: nat, m: Entry)
    requires h.Valid() && o < |h.commit| && Scapegoats(h, o, sg)
  {
    && job < 2 * |sg| && MayPass(h, op, o, sg, m) && Adjoin(e, m)
    && Looks(h, op, o, sg, job, m.suspect) && Needed(op, sg, job) < LinesScore(h, m)
    && Tested(h, op, o, sg, job, 2 * |sg|, e)
  }

  ghost predicate GivenUp(h: History, op: Options, o: nat, sg: seq<Option<nat>>, e: Entry)
    requires h.Valid() && o < |h.commit| && Scapegoats(h, o, sg)
  {
    Tested(h, op, o, sg, 0, 2 * |sg|, e) || exists job: nat, m :: LeftBeside(h, op, o, sg, e, job, m)
  }

  /**
   The entry rightly ends with its suspect: the run stops there, or no parent has the whole file, and the searches
   for moves and copies were made as far as they may take anything of the entry.
   */
  ghost predicate Exhausted(h: History, r: Rules, op: Options, e: Entry)
    requires h.Valid()
  {
    e.suspect < |h.commit|
    && var c := h.commit[e.suspect];
      (r.stop(c) || h.parents[c] == [] ||
       match PlanOf(h, r.noWhole, e.suspect)
       case Whole(p) => false
       case Goats(sg) => GivenUp(h, op, e.suspect, sg, e))
  }

  ghost predicate AllExhausted(h: History, r: Rules, op: Options, es: seq<Entry>)
    requires h.Valid()
  {
    forall e :: e in es ==> Exhausted(h, r, op, e)
  }

  lemma AccountedGivenUp(h: History, op: Options, o: nat, sg: seq<Option<nat>>, es: seq<Entry>, passed: seq<Entry>,
                         e: Entry)
    requires h.Valid() && o < |h.commit| && Scapegoats(h, o, sg) && AllMayPass(h, op, o, sg, passed)
    requires Accounted(h, op, o, sg, es, passed, 2 * |sg|, e)
    ensures GivenUp(h, op, o, sg, e)
  {
    hide Scapegoats, Tested, Looks, MayPass, Needed, LinesScore;
    var x :| x in es && ComesFrom(h, op, o, sg, passed, 2 * |sg|, e, x);
    if !Tested(h, op, o, sg, 0, 2 * |sg|, e) {
      var job: nat, m :| CutOff(h, op, o, sg, passed, 2 * |sg|, e, x, job, m);
      assert LeftBeside(h, op, o, sg, e, job, m);
    }
  }

  /** What an origin keeps after its round is exhausted. */
  lemma LeftExhausted(h: History, r: Rules, op: Options, sus: seq<seq<Entry>>, o: nat)
    requires h.Valid() && o < |sus| == |h.commit| && Suspects(h, sus[o], o) && r.noWhole == op.noWhole
    ensures var left := if r.stop(h.commit[o]) || h.parents[h.commit[o]] == [] then sus else AfterBlame(h, op, sus, o);
      AllExhausted(h, r, op, left[o])
  {
    hide AfterPass, AfterBlame, PlanOf, Good, GivenUp, Accounted, AllMayPass, Scapegoats, Sorted;
    if !r.stop(h.commit[o]) && h.parents[h.commit[o]] != [] {
      match PlanOf(h, op.noWhole, o)
      case Whole(p) => WholeLeavesNone(h, op, sus, o);
      case Goats(sg) =>
        var passed := PassThorough(h, op, sus, o);
        var after := AfterPass(h, op.noWhole, sus, o);
        forall e | e in AfterBlame(h, op, sus, o)[o] ensures Exhausted(h, r, op, e) {
          AccountedGivenUp(h, op, o, sg, after[o], passed, e);
        }
    }
  }

  lemma WholeLeavesNone(h: History, op: Options, sus: seq<seq<Entry>>, o: nat)
    requires h.Valid() && o < |sus| == |h.commit| && Suspects(h, sus[o], o)
    requires h.parents[h.commit[o]] != [] && PlanOf(h, op.noWhole, o).Whole?
    ensures AfterBlame(h, op, sus, o)[o] == []
  {
    hide PlanOf, Suspects, Merge;
  }
}
