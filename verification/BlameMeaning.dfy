/**
 What blame is about: the commit that a single line comes from, found by following that line alone from
 parent to parent; and why passing whole lists of entries (pass_blame in git-2.15.0/blame.c, without -M
 and -C) comes to the same for every line.
 */
module BlameMeaning {
  import opened BlameEntries
  import opened BlameHistory
  import opened BlameCut
  import opened BlameDiff
  import opened BlameSearch
  import opened BlameQueue

  /** Whether whole-file renames are looked for, and the commits at which a run stops. */
  datatype Rules = Rules(noWhole: bool, stop: nat -> bool)

  /** What pass_blame does first: give everything to a parent's identical file, or list the parents' versions. */
  datatype Plan = Whole(porigin: nat) | Goats(sg: seq<Option<nat>>)

  /** The scapegoats found are origins of the parents, each in its place. */
  ghost predicate Scapegoats(h: History, origin: nat, sg: seq<Option<nat>>)
    requires origin < |h.commit| && h.commit[origin] < |h.parents|
  {
    var ps := h.parents[h.commit[origin]];
    |sg| == |ps| && forall i :: 0 <= i < |sg| && sg[i].Some? ==>
      sg[i].value < |h.commit| && h.commit[sg[i].value] == ps[i]
  }

  lemma ScapegoatLower(h: History, origin: nat, o: nat, i: nat)
    requires h.Valid() && origin < |h.commit| && o < |h.commit|
    requires i < |h.parents[h.commit[origin]]| && h.commit[o] == h.parents[h.commit[origin]][i]
    ensures LowerOrigin(h, o, origin) && o != origin
  {
  }

  lemma GoatAt(h: History, origin: nat, sg: seq<Option<nat>>, i: nat)
    requires h.Valid() && origin < |h.commit| && Scapegoats(h, origin, sg) && i < |sg| && sg[i].Some?
    ensures sg[i].value < |h.commit| && LowerOrigin(h, sg[i].value, origin) && sg[i].value != origin
  {
    ScapegoatLower(h, origin, sg[i].value, i);
  }

  predicate SameBlobBefore(h: History, sg: seq<Option<nat>>, i: nat, porigin: nat)
    requires i <= |sg| && porigin < |h.file|
  {
    exists j :: 0 <= j < i && sg[j].Some? && sg[j].value < |h.file| && h.file[sg[j].value] == h.file[porigin]
  }

  /** The search for the parents' versions, from parent i of a pass on. */
  ghost function PlanFrom(h: History, o: nat, passes: int, pass: nat, i: nat, sg: seq<Option<nat>>): (plan: Plan)
    requires h.Valid() && o < |h.commit| && Scapegoats(h, o, sg)
    ensures plan.Whole? ==> plan.porigin < |h.commit| && LowerOrigin(h, plan.porigin, o) && plan.porigin != o
    ensures plan.Whole? ==> h.file[plan.porigin] == h.file[o] && h.commit[plan.porigin] in h.parents[h.commit[o]]
    ensures plan.Goats? ==> Scapegoats(h, o, plan.sg)
    decreases passes - pass, |sg| - i
  {
    var ps := h.parents[h.commit[o]];
    if pass >= passes then Goats(sg)
    else if i >= |ps| then PlanFrom(h, o, passes, pass + 1, 0, sg)
    else if sg[i].Some? || !h.parses(ps[i]) || h.find(pass, ps[i], o).None? then PlanFrom(h, o, passes, pass, i + 1, sg)
    else
      var p := h.find(pass, ps[i], o).value;
      ScapegoatLower(h, o, p, i);
      if h.file[p] == h.file[o] then Whole(p)
      else if SameBlobBefore(h, sg, i, p) then PlanFrom(h, o, passes, pass, i + 1, sg)
      else PlanFrom(h, o, passes, pass, i + 1, sg[i := Some(p)])
  }

  ghost function PlanOf(h: History, noWhole: bool, o: nat): (plan: Plan)
    requires h.Valid() && o < |h.commit|
    ensures plan.Whole? ==> plan.porigin < |h.commit| && LowerOrigin(h, plan.porigin, o) && plan.porigin != o
    ensures plan.Whole? ==> h.file[plan.porigin] == h.file[o] && h.commit[plan.porigin] in h.parents[h.commit[o]]
    ensures plan.Goats? ==> Scapegoats(h, o, plan.sg)
  {
    PlanFrom(h, o, if noWhole then 1 else 2, 0, 0, seq(|h.parents[h.commit[o]]|, _ => None))
  }

  /** No version listed is the origin's own file. */
  ghost predicate Differs(h: History, o: nat, sg: seq<Option<nat>>)
    requires h.Valid() && o < |h.commit| && Scapegoats(h, o, sg)
  {
    forall i :: 0 <= i < |sg| && sg[i].Some? ==> h.file[sg[i].value] != h.file[o]
  }

  /** No version is listed twice. */
  ghost predicate Distinct(h: History, o: nat, sg: seq<Option<nat>>)
    requires h.Valid() && o < |h.commit| && Scapegoats(h, o, sg)
  {
    forall i, j :: 0 <= i < j < |sg| && sg[i].Some? && sg[j].Some? ==> h.file[sg[i].value] != h.file[sg[j].value]
  }

  lemma {:induction false} PlanFromDiffers(h: History, o: nat, passes: int, pass: nat, i: nat, sg: seq<Option<nat>>)
    requires h.Valid() && o < |h.commit| && Scapegoats(h, o, sg) && Differs(h, o, sg) && i <= |sg|
    ensures var plan := PlanFrom(h, o, passes, pass, i, sg); plan.Goats? ==> Differs(h, o, plan.sg)
    decreases passes - pass, |sg| - i
  {
    hide PlanFrom, SameBlobBefore;
    PlanEnds(h, o, passes, pass, i, sg);
    if pass < passes && i == |sg| {
      PlanFromDiffers(h, o, passes, pass + 1, 0, sg);
    } else if pass < passes {
      PlanStep(h, o, passes, pass, i, sg);
      PlanFromDiffers(h, o, passes, pass, i + 1, sg);
      var p := h.find(pass, h.parents[h.commit[o]][i], o);
      if p.Some? && Scapegoats(h, o, sg[i := p]) && Differs(h, o, sg[i := p]) {
        PlanFromDiffers(h, o, passes, pass, i + 1, sg[i := p]);
      }
    }
  }

  lemma {:induction false} PlanFromDistinct(h: History, o: nat, passes: int, pass: nat, i: nat, sg: seq<Option<nat>>)
    requires h.Valid() && o < |h.commit| && Scapegoats(h, o, sg) && Distinct(h, o, sg) && i <= |sg|
    requires passes <= pass + 1 && forall k :: i <= k < |sg| ==> sg[k].None?
    ensures var plan := PlanFrom(h, o, passes, pass, i, sg); plan.Goats? ==> Distinct(h, o, plan.sg)
    decreases passes - pass, |sg| - i
  {
    hide PlanFrom, Distinct, SameBlobBefore;
    PlanEnds(h, o, passes, pass, i, sg);
    if pass < passes && i == |sg| {
      PlanEnds(h, o, passes, pass + 1, 0, sg);
    } else if pass < passes {
      PlanStep(h, o, passes, pass, i, sg);
      PlanFromDistinct(h, o, passes, pass, i + 1, sg);
      var p := h.find(pass, h.parents[h.commit[o]][i], o);
      if p.Some? && Scapegoats(h, o, sg[i := p]) && !SameBlobBefore(h, sg, i, p.value) {
        OneMoreDistinct(h, o, sg, i, p.value);
        PlanFromDistinct(h, o, passes, pass, i + 1, sg[i := p]);
      }
    }
  }

  lemma OneMoreDistinct(h: History, o: nat, sg: seq<Option<nat>>, i: nat, p: nat)
    requires h.Valid() && o < |h.commit| && Scapegoats(h, o, sg) && Distinct(h, o, sg) && i < |sg|
    requires (forall k :: i <= k < |sg| ==> sg[k].None?) && p < |h.file| && !SameBlobBefore(h, sg, i, p)
    requires Scapegoats(h, o, sg[i := Some(p)])
    ensures Distinct(h, o, sg[i := Some(p)])
  {
  }

  /**
   The versions to diff with: never the origin's own file, which would have been given everything.  When
   whole-file renames are not looked for, there is only one pass, and no version is listed twice.
   */
  lemma PlanLists(h: History, noWhole: bool, o: nat)
    requires h.Valid() && o < |h.commit| && PlanOf(h, noWhole, o).Goats?
    ensures Differs(h, o, PlanOf(h, noWhole, o).sg)
    ensures noWhole ==> Distinct(h, o, PlanOf(h, noWhole, o).sg)
  {
    hide PlanFrom;
    var none: seq<Option<nat>> := seq(|h.parents[h.commit[o]]|, _ => None);
    PlanFromDiffers(h, o, if noWhole then 1 else 2, 0, 0, none);
    if noWhole { PlanFromDistinct(h, o, 1, 0, 0, none); }
  }

  // ---------------------------------------------------------------------------------------------
  // One line

  /**
   The origin and line that line s of origin o is blamed on: where the run stops it is o itself; else it is
   what the identical file of a parent is blamed on, or the first parent's version that has the line; and o
   itself if no parent has it.
   */
  ghost function Blamed(h: History, r: Rules, o: nat, s: int): (nat, int)
    requires h.Valid() && o < |h.commit|
    decreases h.rank[h.commit[o]], 1, 0
  {
    var c := h.commit[o];
    if r.stop(c) || h.parents[c] == [] then (o, s) else
    match PlanOf(h, r.noWhole, o)
    case Whole(p) => Blamed(h, r, p, s)
    case Goats(sg) => BlamedBy(h, r, o, sg, 0, s)
  }

  ghost function BlamedBy(h: History, r: Rules, o: nat, sg: seq<Option<nat>>, i: nat, s: int): (nat, int)
    requires h.Valid() && o < |h.commit| && Scapegoats(h, o, sg)
    decreases h.rank[h.commit[o]], 0, |sg| - i
  {
    if i >= |sg| then (o, s)
    else if sg[i].None? then BlamedBy(h, r, o, sg, i + 1, s)
    else
      ScapegoatLower(h, o, sg[i].value, i);
      var t := ParentLine(h.diff(h.file[sg[i].value], h.file[o]), 0, 0, s);
      if t.Some? then Blamed(h, r, sg[i].value, t.value) else BlamedBy(h, r, o, sg, i + 1, s)
  }

  /** The line that a line is blamed on has the same text. */
  lemma {:induction false} BlamedText(h: History, r: Rules, o: nat, s: int)
    requires h.Valid() && o < |h.commit| && 0 <= s < |h.file[o]|
    ensures var (p, t) := Blamed(h, r, o, s);
      p < |h.commit| && 0 <= t < |h.file[p]| && h.file[p][t] == h.file[o][s]
    decreases h.rank[h.commit[o]], 1, 0
  {
    var c := h.commit[o];
    if !r.stop(c) && h.parents[c] != [] {
      match PlanOf(h, r.noWhole, o)
      case Whole(p) => BlamedText(h, r, p, s);
      case Goats(sg) => BlamedByText(h, r, o, sg, 0, s);
    }
  }

  lemma {:induction false} BlamedByText(h: History, r: Rules, o: nat, sg: seq<Option<nat>>, i: nat, s: int)
    requires h.Valid() && o < |h.commit| && Scapegoats(h, o, sg) && 0 <= s < |h.file[o]|
    ensures var (p, t) := BlamedBy(h, r, o, sg, i, s);
      p < |h.commit| && 0 <= t < |h.file[p]| && h.file[p][t] == h.file[o][s]
    decreases h.rank[h.commit[o]], 0, |sg| - i
  {
    if i < |sg| {
      if sg[i].None? {
        BlamedByText(h, r, o, sg, i + 1, s);
      } else {
        var p := sg[i].value;
        ScapegoatLower(h, o, p, i);
        var hs := h.diff(h.file[p], h.file[o]);
        ParentLineText(h.file[p], h.file[o], hs, 0, 0, s);
        var t := ParentLine(hs, 0, 0, s);
        if t.Some? { BlamedText(h, r, p, t.value); } else { BlamedByText(h, r, o, sg, i + 1, s); }
      }
    }
  }

  // ---------------------------------------------------------------------------------------------
  // Lists of entries: the bag of (final line, where it is blamed)

  type Verdict = (int, (nat, int))

  ghost function FateLine(h: History, r: Rules, o: nat): LineFn<Verdict>
    requires h.Valid() && o < |h.commit|
  {
    (x: int, s: int) => multiset{(x, Blamed(h, r, o, s))}
  }

  ghost function FromLine(h: History, r: Rules, o: nat, sg: seq<Option<nat>>, i: nat): LineFn<Verdict>
    requires h.Valid() && o < |h.commit| && Scapegoats(h, o, sg)
  {
    (x: int, s: int) => multiset{(x, BlamedBy(h, r, o, sg, i, s))}
  }

  ghost function PosLine(o: nat): LineFn<Verdict> {
    (x: int, s: int) => multiset{(x, (o, s))}
  }

  /** Where the entries of a list point, line by line. */
  ghost function Positions(es: seq<Entry>): multiset<Verdict> {
    if es == [] then multiset{}
      else Run(es[0].lno, es[0].s_lno, es[0].num_lines, PosLine(es[0].suspect)) + Positions(es[1..])
  }

  lemma {:induction false} PositionsNamed(es: seq<Entry>, o: nat)
    requires AllNaming(es, o)
    ensures Positions(es) == Sum(es, PosLine(o))
  {
    if es != [] {
      assert es[0] in es;
      PositionsNamed(es[1..], o);
    }
  }

  lemma {:induction false} PositionsConcat(a: seq<Entry>, b: seq<Entry>)
    ensures Positions(a + b) == Positions(a) + Positions(b)
  {
    hide Run;
    if a == [] {
      assert a + b == b;
    } else {
      assert (a + b)[1..] == a[1..] + b;
      PositionsConcat(a[1..], b);
    }
  }

  /** What all suspect lists from origin k on will be blamed on. */
  ghost function Fates(h: History, r: Rules, sus: seq<seq<Entry>>, k: nat): multiset<Verdict>
    requires h.Valid() && k <= |sus| <= |h.commit|
    decreases |sus| - k
  {
    if k == |sus| then multiset{} else Sum(sus[k], FateLine(h, r, k)) + Fates(h, r, sus, k + 1)
  }

  lemma {:induction false} FatesUpdate(h: History, r: Rules, sus: seq<seq<Entry>>, i: nat, es: seq<Entry>, k: nat)
    requires h.Valid() && i < |sus| <= |h.commit| && k <= |sus|
    ensures k <= i ==>
      Fates(h, r, sus[i := es], k) + Sum(sus[i], FateLine(h, r, i)) == Fates(h, r, sus, k) + Sum(es, FateLine(h, r, i))
    ensures k > i ==> Fates(h, r, sus[i := es], k) == Fates(h, r, sus, k)
    decreases |sus| - k
  {
    hide Sum, FateLine;
    if k < |sus| {
      FatesUpdate(h, r, sus, i, es, k + 1);
      if k < i {
        Swap(Sum(sus[k], FateLine(h, r, k)), Fates(h, r, sus[i := es], k + 1), Sum(sus[i], FateLine(h, r, i)),
             Fates(h, r, sus, k + 1), Sum(es, FateLine(h, r, i)));
      } else if k == i {
        Exchange(Sum(es, FateLine(h, r, i)), Fates(h, r, sus, k + 1), Sum(sus[i], FateLine(h, r, i)));
      }
    }
  }

  lemma Exchange<T>(a: multiset<T>, b: multiset<T>, c: multiset<T>)
    ensures (a + b) + c == (c + b) + a
  {
  }

  /** Merging a list into another origin's list. */
  lemma FatesMerge(h: History, r: Rules, sus: seq<seq<Entry>>, p: nat, es: seq<Entry>)
    requires h.Valid() && p < |sus| <= |h.commit|
    ensures Fates(h, r, sus[p := Merge(sus[p], es)], 0) == Fates(h, r, sus, 0) + Sum(es, FateLine(h, r, p))
  {
    hide Sum, FateLine, Fates;
    var f := FateLine(h, r, p);
    FatesUpdate(h, r, sus, p, Merge(sus[p], es), 0);
    MergeBag(sus[p], es);
    assert multiset(Merge(sus[p], es)) == multiset(sus[p] + es);
    BagSum(Merge(sus[p], es), sus[p] + es, f);
    SumConcat(sus[p], es, f);
    Cancel(Fates(h, r, sus[p := Merge(sus[p], es)], 0), Fates(h, r, sus, 0), Sum(sus[p], f), Sum(es, f));
  }

  // ---------------------------------------------------------------------------------------------
  // pass_blame without -M and -C, as a function of the suspect lists

  /** pass_whole_blame */
  ghost function GiveWhole(sus: seq<seq<Entry>>, o: nat, p: nat): (r: seq<seq<Entry>>)
    requires o < |sus| && p < |sus|
    ensures |r| == |sus|
  {
    sus[o := []][p := Merge(sus[p], HandAll(sus[o], 0, p))]
  }

  ghost function PassOne(h: History, sus: seq<seq<Entry>>, o: nat, p: nat): (r: seq<seq<Entry>>)
    requires o < |sus| && p < |sus| && |h.file| == |sus|
    ensures |r| == |sus|
  {
    if sus[o] == [] then sus else
    var hs := h.diff(h.file[p], h.file[o]);
    sus[o := KeptBy(sus[o], hs)][p := Merge(sus[p], SentBy(sus[o], hs, 0, 0, p))]
  }

  ghost function PassAll(h: History, sus: seq<seq<Entry>>, o: nat, sg: seq<Option<nat>>, i: nat): (r: seq<seq<Entry>>)
    requires h.Valid() && o < |sus| == |h.commit| && Scapegoats(h, o, sg)
    ensures |r| == |sus|
    decreases |sg| - i
  {
    if i >= |sg| then sus
    else if sg[i].None? then PassAll(h, sus, o, sg, i + 1)
    else PassAll(h, PassOne(h, sus, o, sg[i].value), o, sg, i + 1)
  }

  ghost function AfterPass(h: History, noWhole: bool, sus: seq<seq<Entry>>, o: nat): (r: seq<seq<Entry>>)
    requires h.Valid() && o < |sus| == |h.commit|
    ensures |r| == |sus|
  {
    if h.parents[h.commit[o]] == [] then sus else
    match PlanOf(h, noWhole, o)
    case Whole(p) => GiveWhole(sus, o, p)
    case Goats(sg) => PassAll(h, sus, o, sg, 0)
  }

  /** The search for one parent's version. */
  lemma PlanStep(h: History, o: nat, passes: int, pass: nat, i: nat, sg: seq<Option<nat>>)
    requires h.Valid() && o < |h.commit| && Scapegoats(h, o, sg) && pass < passes && i < |sg|
    ensures var ps := h.parents[h.commit[o]];
      var plan := PlanFrom(h, o, passes, pass, i, sg);
      var skip := PlanFrom(h, o, passes, pass, i + 1, sg);
      if sg[i].Some? || !h.parses(ps[i]) || h.find(pass, ps[i], o).None? then plan == skip else
      var p := h.find(pass, ps[i], o).value;
      && p < |h.commit| && h.commit[p] == ps[i]
      && (if h.file[p] == h.file[o] then plan == Whole(p)
          else if SameBlobBefore(h, sg, i, p) then plan == skip
          else Scapegoats(h, o, sg[i := Some(p)]) && plan == PlanFrom(h, o, passes, pass, i + 1, sg[i := Some(p)]))
  {
    hide SameBlobBefore;
  }

  lemma PlanEnds(h: History, o: nat, passes: int, pass: nat, i: nat, sg: seq<Option<nat>>)
    requires h.Valid() && o < |h.commit| && Scapegoats(h, o, sg)
    ensures pass >= passes ==> PlanFrom(h, o, passes, pass, i, sg) == Goats(sg)
    ensures pass < passes ==> PlanFrom(h, o, passes, pass, |sg|, sg) == PlanFrom(h, o, passes, pass + 1, 0, sg)
  {
  }

  lemma PassAllStep(h: History, sus: seq<seq<Entry>>, o: nat, sg: seq<Option<nat>>, i: nat)
    requires h.Valid() && o < |sus| == |h.commit| && Scapegoats(h, o, sg)
    ensures i >= |sg| ==> PassAll(h, sus, o, sg, i) == sus
    ensures i < |sg| && sg[i].None? ==> PassAll(h, sus, o, sg, i) == PassAll(h, sus, o, sg, i + 1)
    ensures i < |sg| && sg[i].Some? ==>
      PassAll(h, sus, o, sg, i) == PassAll(h, PassOne(h, sus, o, sg[i].value), o, sg, i + 1)
  {
    hide PassOne;
  }

  /** Nothing is left to pass: later parents get nothing. */
  lemma {:induction false} PassAllEmpty(h: History, sus: seq<seq<Entry>>, o: nat, sg: seq<Option<nat>>, i: nat)
    requires h.Valid() && o < |sus| == |h.commit| && Scapegoats(h, o, sg) && sus[o] == []
    ensures PassAll(h, sus, o, sg, i) == sus
    decreases |sg| - i
  {
    if i < |sg| { PassAllEmpty(h, sus, o, sg, i + 1); }
  }

  /** One parent: what it takes is blamed through it, the rest on later parents. */
  lemma PassOneFate(h: History, r: Rules, sus: seq<seq<Entry>>, o: nat, sg: seq<Option<nat>>, i: nat)
    requires h.Valid() && o < |sus| == |h.commit| && Scapegoats(h, o, sg) && i < |sg| && sg[i].Some?
    requires Suspects(h, sus[o], o)
    ensures var sus' := PassOne(h, sus, o, sg[i].value);
      && Suspects(h, sus'[o], o)
      && Fates(h, r, sus'[o := []], 0) + Sum(sus'[o], FromLine(h, r, o, sg, i + 1))
        == Fates(h, r, sus[o := []], 0) + Sum(sus[o], FromLine(h, r, o, sg, i))
  {
    hide Sum, SentBy, KeptBy, Fates, Merge, Blamed, BlamedBy;
    var p := sg[i].value;
    ScapegoatLower(h, o, p, i);
    var f, g, k := FromLine(h, r, o, sg, i), FateLine(h, r, p), FromLine(h, r, o, sg, i + 1);
    if sus[o] == [] {
      SumNil(f);
      SumNil(k);
    } else {
      var hs := h.diff(h.file[p], h.file[o]);
      var sent, kept := SentBy(sus[o], hs, 0, 0, p), KeptBy(sus[o], hs);
      InFile(h, sus[o], o);
      forall x: int, s: int ensures f(x, s) == OneOrOther(g, k, ParentLine(hs, 0, 0, s), x, s) {
        ByParent(h, r, o, sg, i, s);
      }
      DiffSum(h.file[p], h.file[o], sus[o], hs, 0, 0, p, f, g, k);
      DiffLists(h, o, p, sus[o], hs, 0, 0);
      FatesMerge(h, r, sus[o := []], p, sent);
      assert sus[o := kept][p := Merge(sus[p], sent)][o := []] == sus[o := []][p := Merge(sus[o := []][p], sent)];
      Regrouped(Fates(h, r, sus[o := []], 0), Sum(sent, g), Sum(kept, k));
    }
  }

  lemma Regrouped<T>(a: multiset<T>, b: multiset<T>, c: multiset<T>)
    ensures (a + b) + c == a + (b + c)
  {
  }

  lemma ByParent(h: History, r: Rules, o: nat, sg: seq<Option<nat>>, i: nat, s: int)
    requires h.Valid() && o < |h.commit| && Scapegoats(h, o, sg) && i < |sg| && sg[i].Some?
    ensures var t := ParentLine(h.diff(h.file[sg[i].value], h.file[o]), 0, 0, s);
      BlamedBy(h, r, o, sg, i, s) == if t.Some? then Blamed(h, r, sg[i].value, t.value)
        else BlamedBy(h, r, o, sg, i + 1, s)
  {
  }

  lemma InFile(h: History, es: seq<Entry>, o: nat)
    requires h.Valid() && o < |h.commit| && Suspects(h, es, o)
    ensures LinesIn(es, 0, |h.file[o]|) && |h.file[o]| <= INT_MAX
  {
    forall e | e in es ensures 0 <= e.s_lno < e.s_lno + e.num_lines <= |h.file[o]| { assert Good(h, e); }
  }

  /** All parents: in the end what is left is blamed on the origin itself. */
  lemma {:induction false} PassAllFate(h: History, r: Rules, sus: seq<seq<Entry>>, o: nat, sg: seq<Option<nat>>, i: nat)
    requires h.Valid() && o < |sus| == |h.commit| && Scapegoats(h, o, sg) && Suspects(h, sus[o], o)
    ensures var sus' := PassAll(h, sus, o, sg, i);
      && Suspects(h, sus'[o], o)
      && Fates(h, r, sus'[o := []], 0) + Sum(sus'[o], PosLine(o))
        == Fates(h, r, sus[o := []], 0) + Sum(sus[o], FromLine(h, r, o, sg, i))
    decreases |sg| - i
  {
    hide Sum, Fates, Suspects, PassOne, Blamed;
    if i >= |sg| {
      SameSum(h, sus[o], o, FromLine(h, r, o, sg, i), PosLine(o));
    } else if sg[i].None? {
      SameSum(h, sus[o], o, FromLine(h, r, o, sg, i), FromLine(h, r, o, sg, i + 1));
      PassAllFate(h, r, sus, o, sg, i + 1);
    } else {
      PassOneFate(h, r, sus, o, sg, i);
      PassAllFate(h, r, PassOne(h, sus, o, sg[i].value), o, sg, i + 1);
    }
  }

  lemma SameSum<T>(h: History, es: seq<Entry>, o: nat, f: LineFn<T>, g: LineFn<T>)
    requires h.Valid() && o < |h.commit| && Suspects(h, es, o) && forall x, s :: f(x, s) == g(x, s)
    ensures Sum(es, f) == Sum(es, g)
  {
    InFile(h, es, o);
    LinesCong(es, 0, |h.file[o]|, f, g);
  }

  /** pass_blame moves every line one step towards where it is blamed; what is left is blamed where it is. */
  lemma AfterPassFate(h: History, r: Rules, sus: seq<seq<Entry>>, o: nat)
    requires h.Valid() && o < |sus| == |h.commit| && Suspects(h, sus[o], o) && !r.stop(h.commit[o])
    ensures var sus' := AfterPass(h, r.noWhole, sus, o);
      && Suspects(h, sus'[o], o)
      && Fates(h, r, sus'[o := []], 0) + Sum(sus'[o], PosLine(o))
        == Fates(h, r, sus[o := []], 0) + Sum(sus[o], FateLine(h, r, o))
  {
    hide Sum, Fates, Merge, PassAll, BlamedBy, HandAll;
    if h.parents[h.commit[o]] == [] {
      SameSum(h, sus[o], o, FateLine(h, r, o), PosLine(o));
    } else {
      match PlanOf(h, r.noWhole, o)
      case Whole(p) =>
        InFile(h, sus[o], o);
        HandSum(sus[o], 0, |h.file[o]|, 0, p, FateLine(h, r, o), FateLine(h, r, p));
        FatesMerge(h, r, sus[o := []], p, HandAll(sus[o], 0, p));
        assert sus[o := []][p := Merge(sus[p], HandAll(sus[o], 0, p))][o := []]
          == sus[o := []][p := Merge(sus[o := []][p], HandAll(sus[o], 0, p))];
        SumNil(PosLine(o));
      case Goats(sg) =>
        SameSum(h, sus[o], o, FateLine(h, r, o), FromLine(h, r, o, sg, 0));
        PassAllFate(h, r, sus, o, sg, 0);
    }
  }

  /** One round: what its origin keeps becomes final where it is blamed; all other lines keep their fate. */
  lemma RoundFate(h: History, r: Rules, sus: seq<seq<Entry>>, ent: seq<Entry>, o: nat)
    requires h.Valid() && o < |sus| == |h.commit| && Suspects(h, sus[o], o)
    ensures var left := if r.stop(h.commit[o]) || h.parents[h.commit[o]] == [] then sus
      else AfterPass(h, r.noWhole, sus, o);
      Fates(h, r, left[o := []], 0) + Positions(left[o] + ent) == Fates(h, r, sus, 0) + Positions(ent)
  {
    hide Sum, Fates, AfterPass, FateLine, PosLine, Positions;
    var left := if r.stop(h.commit[o]) || h.parents[h.commit[o]] == [] then sus else AfterPass(h, r.noWhole, sus, o);
    FatesUpdate(h, r, sus, o, [], 0);
    SumNil(FateLine(h, r, o));
    if r.stop(h.commit[o]) || h.parents[h.commit[o]] == [] {
      StoppedSum(h, r, sus[o], o);
    } else {
      AfterPassFate(h, r, sus, o);
    }
    PositionsNamed(left[o], o);
    PositionsConcat(left[o], ent);
    Added(Fates(h, r, left[o := []], 0), Sum(left[o], PosLine(o)), Fates(h, r, sus[o := []], 0),
          Sum(sus[o], FateLine(h, r, o)), Fates(h, r, sus, 0), Positions(ent));
  }

  lemma StoppedSum(h: History, r: Rules, es: seq<Entry>, o: nat)
    requires h.Valid() && o < |h.commit| && Suspects(h, es, o) && (r.stop(h.commit[o]) || h.parents[h.commit[o]] == [])
    ensures Sum(es, FateLine(h, r, o)) == Sum(es, PosLine(o))
  {
    SameSum(h, es, o, FateLine(h, r, o), PosLine(o));
  }

  lemma Added<T>(a: multiset<T>, b: multiset<T>, c: multiset<T>, d: multiset<T>, t: multiset<T>, e: multiset<T>)
    requires a + b == c + d && c + d == t + multiset{}
    ensures a + (b + e) == t + e
  {
    assert a + (b + e) == (a + b) + e;
  }
}
