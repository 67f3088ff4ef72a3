/**
 Where a line may end up in a blame run with -M and -C (git-2.15.0/blame.c).  Unlike without them, a line's
 way depends on the lines around it, so a line may have several ends; every run takes each line to one of its.
 */
module BlameTrail {
  import opened BlameEntries
  import opened BlameHistory
  import opened BlameCut
  import opened BlameDiff
  import opened BlameMove
  import opened BlameSearch
  import opened BlameCopy
  import opened BlameQueue
  import opened BlameMeaning
  import opened BlamePass

  /** A line of an origin. */
  type Place = (nat, int)

  /** The first version, from number i on, whose diff has line s of origin o, and the line it has there. */
  ghost function Taker(h: History, o: nat, sg: seq<Option<nat>>, i: nat, s: int): (r: Option<Place>)
    requires h.Valid() && o < |h.commit| && Scapegoats(h, o, sg)
    ensures r.Some? ==> r.value.0 < |h.commit| && LowerOrigin(h, r.value.0, o)
    decreases |sg| - i
  {
    if i >= |sg| then None
    else if sg[i].None? then Taker(h, o, sg, i + 1, s)
    else
      GoatAt(h, o, sg, i);
      var t := ParentLine(h.diff(h.file[sg[i].value], h.file[o]), 0, 0, s);
      if t.Some? then Some((sg[i].value, t.value)) else Taker(h, o, sg, i + 1, s)
  }

  /** A search may take final line x to this place: in an entry that it may pass. */
  ghost predicate Found(h: History, op: Options, o: nat, sg: seq<Option<nat>>, x: int, b: Place)
    requires h.Valid() && o < |h.commit| && Scapegoats(h, o, sg)
  {
    b.0 < |h.commit| && LowerOrigin(h, b.0, o)
    && exists e :: MayPass(h, op, o, sg, e) && e.suspect == b.0 && Points(e, x, b.1)
  }

  /**
   Final line x, suspected at place a, may end up at place z.  It stays where the run stops.  It goes where the
   parent has the whole file, or to the first version whose diff has it.  If no diff has it, it stays, or a
   search takes it further.
   */
  ghost predicate CanEnd(h: History, r: Rules, op: Options, x: int, a: Place, z: Place)
    requires h.Valid() && a.0 < |h.commit|
    decreases h.rank[h.commit[a.0]]
  {
    var c := h.commit[a.0];
    if r.stop(c) || h.parents[c] == [] then z == a else
    match PlanOf(h, r.noWhole, a.0)
    case Whole(p) => CanEnd(h, r, op, x, (p, a.1), z)
    case Goats(sg) =>
      var t := Taker(h, a.0, sg, 0, a.1);
      if t.Some? then CanEnd(h, r, op, x, t.value, z)
      else z == a || exists b: Place :: Found(h, op, a.0, sg, x, b) && CanEnd(h, r, op, x, b, z)
  }

  /** Without -M and -C a line has one end, the one found by following it alone. */
  lemma {:induction false} OneEnd(h: History, r: Rules, op: Options, x: int, a: Place, z: Place)
    requires h.Valid() && a.0 < |h.commit| && !op.move && !op.copy
    ensures CanEnd(h, r, op, x, a, z) <==> z == Blamed(h, r, a.0, a.1)
    decreases h.rank[h.commit[a.0]]
  {
    hide PlanOf, LinesScore, Good;
    var c := h.commit[a.0];
    if !r.stop(c) && h.parents[c] != [] {
      match PlanOf(h, r.noWhole, a.0)
      case Whole(p) => OneEnd(h, r, op, x, (p, a.1), z);
      case Goats(sg) =>
        TakerBlames(h, r, a.0, sg, 0, a.1);
        var t := Taker(h, a.0, sg, 0, a.1);
        if t.Some? { OneEnd(h, r, op, x, t.value, z); }
    }
  }

  lemma {:induction false} TakerBlames(h: History, r: Rules, o: nat, sg: seq<Option<nat>>, i: nat, s: int)
    requires h.Valid() && o < |h.commit| && Scapegoats(h, o, sg)
    ensures var t := Taker(h, o, sg, i, s);
      BlamedBy(h, r, o, sg, i, s) == if t.Some? then Blamed(h, r, t.value.0, t.value.1) else (o, s)
    decreases |sg| - i
  {
    hide Blamed;
    if i < |sg| { TakerBlames(h, r, o, sg, i + 1, s); }
  }

  /** Version i is the first of the list whose diff did not put line s into origin o's file. */
  ghost predicate FirstWith(h: History, o: nat, sg: seq<Option<nat>>, from: nat, i: nat, s: int)
    requires h.Valid() && o < |h.commit| && Scapegoats(h, o, sg)
  {
    && from <= i < |sg| && sg[i].Some? && !InHunk(h.diff(h.file[sg[i].value], h.file[o]), s)
    && forall j :: from <= j < i && sg[j].Some? ==> InHunk(h.diff(h.file[sg[j].value], h.file[o]), s)
  }

  /** Version `from` has the line. */
  ghost predicate HasLine(h: History, o: nat, sg: seq<Option<nat>>, from: nat, s: int)
    requires h.Valid() && o < |h.commit| && Scapegoats(h, o, sg) && from < |sg|
  {
    sg[from].Some? && !InHunk(h.diff(h.file[sg[from].value], h.file[o]), s)
  }

  lemma FirstHere(h: History, o: nat, sg: seq<Option<nat>>, from: nat, s: int)
    requires h.Valid() && o < |h.commit| && Scapegoats(h, o, sg) && from < |sg| && HasLine(h, o, sg, from, s)
    ensures forall i: nat :: FirstWith(h, o, sg, from, i, s) <==> i == from
  {
    hide InHunk;
  }

  lemma FirstLater(h: History, o: nat, sg: seq<Option<nat>>, from: nat, s: int)
    requires h.Valid() && o < |h.commit| && Scapegoats(h, o, sg) && from < |sg| && !HasLine(h, o, sg, from, s)
    ensures forall i: nat :: FirstWith(h, o, sg, from, i, s) <==> FirstWith(h, o, sg, from + 1, i, s)
  {
    hide InHunk;
  }

  lemma {:induction false} TakerFrom(h: History, o: nat, sg: seq<Option<nat>>, from: nat, s: int)
    requires h.Valid() && o < |h.commit| && Scapegoats(h, o, sg) && 0 <= s
    ensures Taker(h, o, sg, from, s).None? <==> forall i: nat :: !FirstWith(h, o, sg, from, i, s)
    ensures forall i: nat :: FirstWith(h, o, sg, from, i, s) ==>
      var t := ParentLine(h.diff(h.file[sg[i].value], h.file[o]), 0, 0, s);
      t.Some? && Taker(h, o, sg, from, s) == Some((sg[i].value, t.value))
    decreases |sg| - from
  {
    hide InHunk, ParentLine, FirstWith;
    if from < |sg| {
      if sg[from].Some? {
        var p := sg[from].value;
        ParentLineIs(h.file[p], h.file[o], h.diff(h.file[p], h.file[o]), s);
      }
      if HasLine(h, o, sg, from, s) {
        FirstHere(h, o, sg, from, s);
        assert FirstWith(h, o, sg, from, from, s);
      } else {
        FirstLater(h, o, sg, from, s);
        TakerFrom(h, o, sg, from + 1, s);
        assert Taker(h, o, sg, from, s) == Taker(h, o, sg, from + 1, s);
        if Taker(h, o, sg, from + 1, s).Some? {
          var i: nat :| FirstWith(h, o, sg, from + 1, i, s);
          assert FirstWith(h, o, sg, from, i, s);
        }
      }
    } else {
      NoneFirst(h, o, sg, from, s);
    }
  }

  lemma NoneFirst(h: History, o: nat, sg: seq<Option<nat>>, from: nat, s: int)
    requires h.Valid() && o < |h.commit| && Scapegoats(h, o, sg) && |sg| <= from
    ensures forall i: nat :: !FirstWith(h, o, sg, from, i, s)
  {
  }

  /** Without -M and -C, one step of a line: to the first version listed that has it, and to its place there. */
  lemma BlamedIs(h: History, r: Rules, o: nat, s: int)
    requires h.Valid() && o < |h.commit| && 0 <= s
    ensures var c := h.commit[o];
      if r.stop(c) || h.parents[c] == [] then Blamed(h, r, o, s) == (o, s) else
      var plan := PlanOf(h, r.noWhole, o);
      if plan.Whole? then Blamed(h, r, o, s) == Blamed(h, r, plan.porigin, s) else
      && ((forall i: nat :: !FirstWith(h, o, plan.sg, 0, i, s)) ==> Blamed(h, r, o, s) == (o, s))
      && forall i: nat :: FirstWith(h, o, plan.sg, 0, i, s) ==>
        var t := ParentLine(h.diff(h.file[plan.sg[i].value], h.file[o]), 0, 0, s);
        t.Some? && Blamed(h, r, o, s) == Blamed(h, r, plan.sg[i].value, t.value)
  {
    hide PlanOf, FirstWith, BlamedBy;
    var c := h.commit[o];
    if !r.stop(c) && h.parents[c] != [] && PlanOf(h, r.noWhole, o).Goats? {
      var sg := PlanOf(h, r.noWhole, o).sg;
      TakerBlames(h, r, o, sg, 0, s);
      TakerFrom(h, o, sg, 0, s);
    }
  }

  /** Wherever a line may end, it has the text of the final line. */
  lemma {:induction false} EndText(h: History, r: Rules, op: Options, x: int, a: Place, z: Place)
    requires h.Valid() && a.0 < |h.commit| && 0 <= x < |h.image|
    requires 0 <= a.1 < |h.file[a.0]| && h.file[a.0][a.1] == h.image[x] && CanEnd(h, r, op, x, a, z)
    ensures z.0 < |h.commit| && 0 <= z.1 < |h.file[z.0]| && h.file[z.0][z.1] == h.image[x]
    decreases h.rank[h.commit[a.0]]
  {
    hide PlanOf, MayPass;
    var c := h.commit[a.0];
    if !r.stop(c) && h.parents[c] != [] {
      match PlanOf(h, r.noWhole, a.0)
      case Whole(p) => EndText(h, r, op, x, (p, a.1), z);
      case Goats(sg) =>
        var t := Taker(h, a.0, sg, 0, a.1);
        if t.Some? {
          TakerText(h, a.0, sg, 0, a.1);
          EndText(h, r, op, x, t.value, z);
        } else if z != a {
          var b: Place :| Found(h, op, a.0, sg, x, b) && CanEnd(h, r, op, x, b, z);
          var e :| MayPass(h, op, a.0, sg, e) && e.suspect == b.0 && Points(e, x, b.1);
          PassableText(h, op, a.0, sg, e, x, b.1);
          EndText(h, r, op, x, b, z);
        }
    }
  }

  lemma {:induction false} TakerText(h: History, o: nat, sg: seq<Option<nat>>, i: nat, s: int)
    requires h.Valid() && o < |h.commit| && Scapegoats(h, o, sg) && 0 <= s < |h.file[o]|
    ensures var t := Taker(h, o, sg, i, s);
      t.Some? ==> 0 <= t.value.1 < |h.file[t.value.0]| && h.file[t.value.0][t.value.1] == h.file[o][s]
    decreases |sg| - i
  {
    if i < |sg| {
      TakerText(h, o, sg, i + 1, s);
      if sg[i].Some? {
        GoatAt(h, o, sg, i);
        ParentLineText(h.file[sg[i].value], h.file[o], h.diff(h.file[sg[i].value], h.file[o]), 0, 0, s);
      }
    }
  }

  lemma PassableText(h: History, op: Options, o: nat, sg: seq<Option<nat>>, e: Entry, x: int, t: int)
    requires h.Valid() && o < |h.commit| && Scapegoats(h, o, sg) && MayPass(h, op, o, sg, e) && Points(e, x, t)
    ensures 0 <= t < |h.file[e.suspect]| && 0 <= x < |h.image| && h.file[e.suspect][t] == h.image[x]
  {
    hide Searched, LinesScore, Scapegoats, LowerOrigin;
    var k := x - e.lno;
    assert x == e.lno + k && t == e.s_lno + k;
    assert h.file[e.suspect][e.s_lno..e.s_lno + e.num_lines][k] == h.image[e.lno..e.lno + e.num_lines][k];
  }

  // ---------------------------------------------------------------------------------------------
  // One round

  /** Whatever may become of final line x from place b on may become of it from place a on. */
  ghost predicate Leads(h: History, r: Rules, op: Options, x: int, a: Place, b: Place)
    requires h.Valid() && a.0 < |h.commit| && b.0 < |h.commit|
  {
    forall z :: CanEnd(h, r, op, x, b, z) ==> CanEnd(h, r, op, x, a, z)
  }

  lemma {:induction false} InRun<T>(lno: int, s: int, n: nat, f: LineFn<T>, v: T) returns (x: int, t: int)
    requires v in Run(lno, s, n, f)
    ensures lno <= x < lno + n && t == s + (x - lno) && v in f(x, t)
    decreases n
  {
    if v in f(lno, s) { x, t := lno, s; } else { x, t := InRun(lno + 1, s + 1, n - 1, f, v); }
  }

  /** Whatever a sum says was said of some line of some entry. */
  lemma {:induction false} InSum<T>(es: seq<Entry>, f: LineFn<T>, v: T) returns (e: Entry, x: int, t: int)
    requires v in Sum(es, f)
    ensures e in es && Points(e, x, t) && v in f(x, t)
  {
    if v in Run(es[0].lno, es[0].s_lno, es[0].num_lines, f) {
      x, t := InRun(es[0].lno, es[0].s_lno, es[0].num_lines, f, v);
      e := es[0];
    } else {
      e, x, t := InSum(es[1..], f, v);
    }
  }

  lemma {:induction false} RunPairs(lno: int, s: int, n: nat, x: int, t: int)
    ensures (x, t) in Run(lno, s, n, PairOf()) <==> lno <= x < lno + n && t == s + (x - lno)
    decreases n
  {
    if n > 0 { RunPairs(lno + 1, s + 1, n - 1, x, t); }
  }

  lemma {:induction false} HasPair(es: seq<Entry>, e: Entry, x: int, t: int)
    requires e in es && Points(e, x, t)
    ensures (x, t) in Pairs(es)
  {
    hide Run;
    if e == es[0] { RunPairs(e.lno, e.s_lno, e.num_lines, x, t); } else { HasPair(es[1..], e, x, t); }
  }

  lemma {:induction false} RunFinal(lno: int, s: int, n: nat, x: int)
    requires lno <= x < lno + n
    ensures x in Run(lno, s, n, FinalOf())
    decreases n
  {
    if x > lno { RunFinal(lno + 1, s + 1, n - 1, x); }
  }

  lemma {:induction false} HasCover(es: seq<Entry>, e: Entry, x: int, t: int)
    requires e in es && Points(e, x, t)
    ensures x in Cover(es)
  {
    hide Run;
    if e == es[0] { RunFinal(e.lno, e.s_lno, e.num_lines, x); } else { HasCover(es[1..], e, x, t); }
  }

  lemma CoveredPair(es: seq<Entry>, x: int) returns (s: int)
    requires x in Cover(es)
    ensures (x, s) in Pairs(es)
  {
    hide Sum;
    var e, y, t := InSum(es, FinalOf(), x);
    s := t;
    HasPair(es, e, x, s);
  }

  /** Line (x, t) of origin p's list after the diffs: it was there, or it was o's and taken for p. */
  ghost predicate Taken(h: History, sus: seq<seq<Entry>>, o: nat, sg: seq<Option<nat>>, i: nat, p: nat, x: int, t: int)
    requires h.Valid() && o < |sus| == |h.commit| && Scapegoats(h, o, sg) && p < |sus|
  {
    (x, t) in Pairs(sus[p]) || exists s :: (x, s) in Pairs(sus[o]) && Taker(h, o, sg, i, s) == Some((p, t))
  }

  /** Line (x, s) of origin o's list after the diffs: it was there, and no version has it. */
  ghost predicate Untaken(h: History, sus: seq<seq<Entry>>, o: nat, sg: seq<Option<nat>>, i: nat, x: int, s: int)
    requires h.Valid() && o < |sus| == |h.commit| && Scapegoats(h, o, sg)
  {
    (x, s) in Pairs(sus[o]) && Taker(h, o, sg, i, s) == None
  }

  lemma MergedPairs(a: seq<Entry>, b: seq<Entry>)
    ensures Pairs(Merge(a, b)) == Pairs(a) + Pairs(b)
  {
    hide Merge, Sum;
    MergeBag(a, b);
    assert multiset(Merge(a, b)) == multiset(a + b);
    BagSum(Merge(a, b), a + b, PairOf());
    SumConcat(a, b, PairOf());
  }

  /** One diff: what is sent was a line that the parent has, what is kept one that it has not. */
  lemma PassOneLines(h: History, sus: seq<seq<Entry>>, o: nat, p: nat, x: int, t: int)
    requires h.Valid() && o < |sus| == |h.commit| && p < |sus| && p != o && Suspects(h, sus[o], o)
    ensures var sus', hs := PassOne(h, sus, o, p), h.diff(h.file[p], h.file[o]);
      && ((x, t) in Pairs(sus'[p]) ==>
            (x, t) in Pairs(sus[p]) || exists s :: (x, s) in Pairs(sus[o]) && ParentLine(hs, 0, 0, s) == Some(t))
      && ((x, t) in Pairs(sus'[o]) ==> (x, t) in Pairs(sus[o]) && ParentLine(hs, 0, 0, t) == None)
      && forall q :: 0 <= q < |sus| && q != o && q != p ==> sus'[q] == sus[q]
  {
    hide Sum, SentBy, KeptBy, Merge, Suspects, ParentLine;
    EmptySums();
    if sus[o] != [] {
      var hs := h.diff(h.file[p], h.file[o]);
      var sent, kept := SentBy(sus[o], hs, 0, 0, p), KeptBy(sus[o], hs);
      InFile(h, sus[o], o);
      SuspectsSorted(h, sus[o], o);
      DiffLines(h.file[p], h.file[o], sus[o], hs, 0, 0, p);
      MergedPairs(sus[p], sent);
      if (x, t) in Pairs(sent) {
        var e, y, s := InSum(sus[o], SentLine(hs, 0, 0), (x, t));
        HasPair(sus[o], e, y, s);
      }
      if (x, t) in Pairs(kept) {
        var e, y, s := InSum(sus[o], KeptLine(hs, 0, 0), (x, t));
        HasPair(sus[o], e, y, s);
      }
    }
  }

  lemma SuspectsSorted(h: History, es: seq<Entry>, o: nat)
    requires Suspects(h, es, o)
    ensures Sorted(es) && Mine(h, es, o)
  {
  }

  lemma {:induction false} PassAllLines(h: History, sus: seq<seq<Entry>>, o: nat, sg: seq<Option<nat>>, i: nat,
                                        p: nat, x: int, t: int)
    requires h.Valid() && o < |sus| == |h.commit| && Scapegoats(h, o, sg) && Suspects(h, sus[o], o) && p < |sus|
    ensures var after := PassAll(h, sus, o, sg, i);
      (x, t) in Pairs(after[p]) ==>
        if p == o then Untaken(h, sus, o, sg, i, x, t) else Taken(h, sus, o, sg, i, p, x, t)
    decreases |sg| - i
  {
    hide Sum, PassOne, Suspects, Scapegoats, ParentLine;
    if i < |sg| && sg[i].None? {
      PassAllLines(h, sus, o, sg, i + 1, p, x, t);
    } else if i < |sg| && (x, t) in Pairs(PassAll(h, sus, o, sg, i)[p]) {
      var q := sg[i].value;
      GoatAt(h, o, sg, i);
      var sus' := PassOne(h, sus, o, q);
      PassOneSuspects(h, sus, o, q);
      PassAllLines(h, sus', o, sg, i + 1, p, x, t);
      PassOneLines(h, sus, o, q, x, t);
      if p != o && (x, t) !in Pairs(sus'[p]) {
        var s :| (x, s) in Pairs(sus'[o]) && Taker(h, o, sg, i + 1, s) == Some((p, t));
        PassOneLines(h, sus, o, q, x, s);
      }
    }
  }

  /** Following a line one step of pass_blame. */
  lemma StepLeads(h: History, r: Rules, op: Options, x: int, a: Place, b: Place)
    requires h.Valid() && a.0 < |h.commit| && b.0 < |h.commit| && !r.stop(h.commit[a.0])
    requires h.parents[h.commit[a.0]] != []
    requires var plan := PlanOf(h, r.noWhole, a.0);
      if plan.Whole? then b == (plan.porigin, a.1)
      else
        var taker := Taker(h, a.0, plan.sg, 0, a.1);
        taker == Some(b) || (taker == None && Found(h, op, a.0, plan.sg, x, b))
    ensures Leads(h, r, op, x, a, b)
  {
    hide PlanOf, Taker, Found;
    forall z | CanEnd(h, r, op, x, b, z) ensures CanEnd(h, r, op, x, a, z) {
      match PlanOf(h, r.noWhole, a.0)
      case Whole(p) =>
      case Goats(sg) =>
        if Taker(h, a.0, sg, 0, a.1) == None { assert Found(h, op, a.0, sg, x, b) && CanEnd(h, r, op, x, b, z); }
    }
  }

  lemma StepEnds(h: History, r: Rules, op: Options, x: int, a: Place)
    requires h.Valid() && a.0 < |h.commit|
    requires !r.stop(h.commit[a.0]) && h.parents[h.commit[a.0]] != [] ==>
      var plan := PlanOf(h, r.noWhole, a.0); plan.Goats? && Taker(h, a.0, plan.sg, 0, a.1) == None
    ensures CanEnd(h, r, op, x, a, a)
  {
    hide PlanOf, Taker, Found;
  }

  /** Line (x, t) of p's list came there from o's. */
  ghost predicate CameFrom(h: History, r: Rules, op: Options, sus: seq<seq<Entry>>, o: nat, p: nat, x: int, t: int)
    requires h.Valid() && o < |sus| == |h.commit| && p < |sus|
  {
    exists s :: (x, s) in Pairs(sus[o]) && Leads(h, r, op, x, (o, s), (p, t))
  }

  /** pass_blame: every line of another origin's list was there before, or came there on one of its ways. */
  lemma PassedTrail(h: History, r: Rules, op: Options, sus: seq<seq<Entry>>, o: nat, p: nat, x: int, t: int)
    requires h.Valid() && o < |sus| == |h.commit| && Suspects(h, sus[o], o) && p < |sus| && p != o
    requires !r.stop(h.commit[o]) && r.noWhole == op.noWhole && (x, t) in Pairs(AfterBlame(h, op, sus, o)[p])
    ensures (x, t) in Pairs(sus[p]) || CameFrom(h, r, op, sus, o, p, x, t)
  {
    hide Sum, AfterPass, AfterBlame, PlanOf, Suspects, Leads, AllMayPass, Group, Taker;
    var after := AfterPass(h, op.noWhole, sus, o);
    var passed := AfterBlameMeans(h, op, sus, o);
    BagSum(AfterBlame(h, op, sus, o)[p], after[p] + Group(passed, p), PairOf());
    SumConcat(after[p], Group(passed, p), PairOf());
    if (x, t) in Pairs(after[p]) {
      DiffTrail(h, r, op, sus, o, p, x, t);
    } else {
      var e, y, u := InSum(Group(passed, p), PairOf(), (x, t));
      InGroup(passed, p, e);
      SearchTrail(h, r, op, sus, o, passed, e, x, t);
    }
  }

  lemma {:induction false} InGroup(es: seq<Entry>, o: nat, e: Entry)
    requires e in Group(es, o)
    ensures e in es && e.suspect == o
  {
    if es[0].suspect != o || e != es[0] { InGroup(es[1..], o, e); }
  }

  lemma DiffTrail(h: History, r: Rules, op: Options, sus: seq<seq<Entry>>, o: nat, p: nat, x: int, t: int)
    requires h.Valid() && o < |sus| == |h.commit| && Suspects(h, sus[o], o) && p < |sus| && p != o
    requires !r.stop(h.commit[o]) && r.noWhole == op.noWhole && (x, t) in Pairs(AfterPass(h, op.noWhole, sus, o)[p])
    ensures (x, t) in Pairs(sus[p]) || CameFrom(h, r, op, sus, o, p, x, t)
  {
    hide Sum, PassAll, PlanOf, Suspects, Leads, Taker, HandAll, Merge;
    if h.parents[h.commit[o]] != [] && (x, t) !in Pairs(sus[p]) {
      match PlanOf(h, op.noWhole, o)
      case Whole(q) =>
        if p == q {
          SuspectsSorted(h, sus[o], o);
          InFile(h, sus[o], o);
          HandSum(sus[o], 0, |h.file[o]|, 0, q, PairOf(), PairOf());
          MergedPairs(sus[q], HandAll(sus[o], 0, q));
          StepLeads(h, r, op, x, (o, t), (q, t));
        }
      case Goats(sg) =>
        PassAllLines(h, sus, o, sg, 0, p, x, t);
        var s :| (x, s) in Pairs(sus[o]) && Taker(h, o, sg, 0, s) == Some((p, t));
        StepLeads(h, r, op, x, (o, s), (p, t));
    }
  }

  lemma SearchTrail(h: History, r: Rules, op: Options, sus: seq<seq<Entry>>, o: nat, passed: seq<Entry>,
                    e: Entry, x: int, t: int)
    requires h.Valid() && o < |sus| == |h.commit| && Suspects(h, sus[o], o) && e in passed && Points(e, x, t)
    requires !r.stop(h.commit[o]) && r.noWhole == op.noWhole && h.parents[h.commit[o]] != []
    requires PlanOf(h, op.noWhole, o).Goats? && AllMayPass(h, op, o, PlanOf(h, op.noWhole, o).sg, passed)
    requires Cover(passed) <= Cover(AfterPass(h, op.noWhole, sus, o)[o])
    ensures e.suspect < |sus| && CameFrom(h, r, op, sus, o, e.suspect, x, t)
  {
    hide Sum, PassAll, PlanOf, Suspects, Leads, Taker, Searched, LinesScore;
    var sg := PlanOf(h, op.noWhole, o).sg;
    HasCover(passed, e, x, t);
    var s := CoveredPair(PassAll(h, sus, o, sg, 0)[o], x);
    PassAllLines(h, sus, o, sg, 0, o, x, s);
    assert MayPass(h, op, o, sg, e);
    StepLeads(h, r, op, x, (o, s), (e.suspect, t));
  }

  /** What stays with the origin was there before, and may end there. */
  lemma KeptTrail(h: History, r: Rules, op: Options, sus: seq<seq<Entry>>, o: nat, x: int, s: int)
    requires h.Valid() && o < |sus| == |h.commit| && Suspects(h, sus[o], o)
    requires !r.stop(h.commit[o]) && r.noWhole == op.noWhole && (x, s) in Pairs(AfterBlame(h, op, sus, o)[o])
    ensures (x, s) in Pairs(sus[o]) && CanEnd(h, r, op, x, (o, s), (o, s))
  {
    hide Sum, PassAll, PlanOf, Suspects, Taker, AfterBlame, CanEnd, HandAll, Merge;
    var passed := AfterBlameMeans(h, op, sus, o);
    EmptySums();
    if h.parents[h.commit[o]] != [] {
      match PlanOf(h, op.noWhole, o)
      case Whole(q) =>
      case Goats(sg) => PassAllLines(h, sus, o, sg, 0, o, x, s);
    }
    StepEnds(h, r, op, x, (o, s));
  }

  // ---------------------------------------------------------------------------------------------
  // Whole runs: where the lines of the lists in hand come from, given the lists at the start

  ghost predicate Comes(h: History, r: Rules, op: Options, start: seq<seq<Entry>>, x: int, b: Place)
    requires h.Valid() && |start| == |h.commit|
  {
    b.0 < |h.commit| && exists a: Place :: a.0 < |start| && (x, a.1) in Pairs(start[a.0]) && Leads(h, r, op, x, a, b)
  }

  ghost predicate Ends(h: History, r: Rules, op: Options, start: seq<seq<Entry>>, x: int, z: Place)
    requires h.Valid() && |start| == |h.commit|
  {
    exists a: Place :: a.0 < |start| && (x, a.1) in Pairs(start[a.0]) && CanEnd(h, r, op, x, a, z)
  }

  /** Every line of the suspect lists is on one of its ways, and every line of ent is at an end of one. */
  ghost predicate OnTrail(h: History, r: Rules, op: Options, start: seq<seq<Entry>>, sus: seq<seq<Entry>>,
                          ent: seq<Entry>)
    requires h.Valid() && |start| == |h.commit|
  {
    && (forall o: nat, x, s :: o < |sus| && (x, s) in Pairs(sus[o]) ==> Comes(h, r, op, start, x, (o, s)))
    && (forall e, x, s :: e in ent && Points(e, x, s) ==> Ends(h, r, op, start, x, (e.suspect, s)))
  }

  lemma TrailStart(h: History, r: Rules, op: Options, sus: seq<seq<Entry>>)
    requires h.Valid() && |sus| == |h.commit|
    ensures OnTrail(h, r, op, sus, sus, [])
  {
    hide Sum, CanEnd;
    forall o: nat, x, s | o < |sus| && (x, s) in Pairs(sus[o]) ensures Comes(h, r, op, sus, x, (o, s)) {
      var a: Place := (o, s);
      assert Leads(h, r, op, x, a, a);
    }
  }

  lemma Onward(h: History, r: Rules, op: Options, start: seq<seq<Entry>>, x: int, b: Place, c: Place)
    requires h.Valid() && |start| == |h.commit| && Comes(h, r, op, start, x, b) && c.0 < |h.commit|
    ensures Leads(h, r, op, x, b, c) ==> Comes(h, r, op, start, x, c)
    ensures CanEnd(h, r, op, x, b, c) ==> Ends(h, r, op, start, x, c)
  {
    hide Sum, CanEnd;
    var a: Place :| a.0 < |start| && (x, a.1) in Pairs(start[a.0]) && Leads(h, r, op, x, a, b);
    if Leads(h, r, op, x, b, c) { assert Leads(h, r, op, x, a, c); }
  }

  /** One round of assign_blame for origin o keeps all lines on their ways. */
  lemma TrailRound(h: History, r: Rules, op: Options, start: seq<seq<Entry>>, sus: seq<seq<Entry>>, ent: seq<Entry>,
                   o: nat)
    requires h.Valid() && |start| == |h.commit| == |sus| && o < |sus| && Suspects(h, sus[o], o)
    requires r.noWhole == op.noWhole && OnTrail(h, r, op, start, sus, ent)
    ensures var left := if r.stop(h.commit[o]) || h.parents[h.commit[o]] == [] then sus else AfterBlame(h, op, sus, o);
      OnTrail(h, r, op, start, left[o := []], left[o] + ent)
  {
    hide Sum, CanEnd, AfterBlame, Comes, Ends, Leads, Suspects;
    var stop := r.stop(h.commit[o]) || h.parents[h.commit[o]] == [];
    var left := if stop then sus else AfterBlame(h, op, sus, o);
    EmptySums();
    forall p: nat, x, t | p < |sus| && (x, t) in Pairs(left[o := []][p]) ensures Comes(h, r, op, start, x, (p, t)) {
      if !stop && p != o && (x, t) !in Pairs(sus[p]) {
        PassedTrail(h, r, op, sus, o, p, x, t);
        var s :| (x, s) in Pairs(sus[o]) && Leads(h, r, op, x, (o, s), (p, t));
        Onward(h, r, op, start, x, (o, s), (p, t));
      }
    }
    NamesAll(h, op, sus, o);
    forall e, x, s | e in left[o] && Points(e, x, s) ensures Ends(h, r, op, start, x, (e.suspect, s)) {
      HasPair(left[o], e, x, s);
      assert e.suspect == o;
      if stop { StepEnds(h, r, op, x, (o, s)); } else { KeptTrail(h, r, op, sus, o, x, s); }
      Onward(h, r, op, start, x, (o, s), (o, s));
    }
  }

  lemma NamesAll(h: History, op: Options, sus: seq<seq<Entry>>, o: nat)
    requires h.Valid() && o < |sus| == |h.commit| && Suspects(h, sus[o], o)
    ensures AllNaming(sus[o], o) && AllNaming(AfterBlame(h, op, sus, o)[o], o)
  {
    hide AfterBlame, AfterPass, Sum, Good;
    var passed := AfterBlameMeans(h, op, sus, o);
  }

  // ---------------------------------------------------------------------------------------------
  // Which commits a run comes to

  /** A list that was empty is filled only at a parent's commit. */
  lemma FilledAtParents(h: History, op: Options, sus: seq<seq<Entry>>, o: nat, p: nat)
    requires h.Valid() && o < |sus| == |h.commit| && Suspects(h, sus[o], o) && p < |sus| && p != o
    requires sus[p] == [] && AfterBlame(h, op, sus, o)[p] != []
    ensures h.commit[p] in h.parents[h.commit[o]]
  {
    hide AfterPass, PlanOf, Suspects, AfterBlame, Sum, Group, AllMayPass;
    var after := AfterPass(h, op.noWhole, sus, o);
    var passed := AfterBlameMeans(h, op, sus, o);
    if after[p] != [] {
      FilledByDiffs(h, op.noWhole, sus, o, p);
    } else {
      var r := AfterBlame(h, op, sus, o)[p];
      var e := r[0];
      assert e in multiset(r) && multiset(after[p]) == multiset{};
      assert e in multiset(Group(passed, p));
      InGroup(passed, p, e);
      FoundAtParent(h, op, o, PlanOf(h, op.noWhole, o).sg, passed, e);
    }
  }

  lemma FoundAtParent(h: History, op: Options, o: nat, sg: seq<Option<nat>>, passed: seq<Entry>, e: Entry)
    requires h.Valid() && o < |h.commit| && Scapegoats(h, o, sg) && AllMayPass(h, op, o, sg, passed) && e in passed
    ensures e.suspect < |h.commit| && h.commit[e.suspect] in h.parents[h.commit[o]]
  {
    hide Good, LinesScore;
    assert MayPass(h, op, o, sg, e);
    var min: nat :| Searched(h, op, o, sg, e.suspect, min);
    SearchedAtParent(h, op, o, sg, e.suspect, min);
  }

  lemma SearchedAtParent(h: History, op: Options, o: nat, sg: seq<Option<nat>>, c: nat, min: nat)
    requires h.Valid() && o < |h.commit| && Scapegoats(h, o, sg) && Searched(h, op, o, sg, c, min)
    ensures c < |h.commit| && h.commit[c] in h.parents[h.commit[o]]
  {
    if Some(c) in sg {
      var i :| 0 <= i < |sg| && sg[i] == Some(c);
      assert h.parents[h.commit[o]][i] == h.commit[c];
    } else {
      var i :| 0 <= i < |sg| && c in CopyFiles(h, o, sg, i);
      var p := h.parents[h.commit[o]][i];
      OthersAre(h.copies(p, o), sg[i]);
      var k :| 0 <= k < |h.copies(p, o)| && h.copies(p, o)[k] == c;
    }
  }

  lemma FilledByDiffs(h: History, noWhole: bool, sus: seq<seq<Entry>>, o: nat, p: nat)
    requires h.Valid() && o < |sus| == |h.commit| && p < |sus| && p != o
    requires sus[p] == [] && AfterPass(h, noWhole, sus, o)[p] != []
    ensures h.commit[p] in h.parents[h.commit[o]]
  {
    hide PlanOf, PassAll, HandAll, Merge;
    match PlanOf(h, noWhole, o)
    case Whole(q) =>
    case Goats(sg) => FilledByAll(h, sus, o, sg, 0, p);
  }

  lemma {:induction false} FilledByAll(h: History, sus: seq<seq<Entry>>, o: nat, sg: seq<Option<nat>>, i: nat, p: nat)
    requires h.Valid() && o < |sus| == |h.commit| && Scapegoats(h, o, sg) && p < |sus| && p != o
    requires sus[p] == [] && PassAll(h, sus, o, sg, i)[p] != []
    ensures h.commit[p] in h.parents[h.commit[o]]
    decreases |sg| - i
  {
    hide SentBy, KeptBy, Merge;
    if i < |sg| {
      if sg[i].None? {
        FilledByAll(h, sus, o, sg, i + 1, p);
      } else if sg[i].value == p {
        assert h.parents[h.commit[o]][i] == h.commit[p];
      } else {
        GoatAt(h, o, sg, i);
        FilledByAll(h, PassOne(h, sus, o, sg[i].value), o, sg, i + 1, p);
      }
    }
  }
}
