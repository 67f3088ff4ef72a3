/**
 pass_blame and assign_blame (git-2.15.0/blame.c): every suspect list is broken down, the pieces going to
 parents' origins or, finally, to the list of entries whose origin is known.
 */
module BlameAssign {
  import opened BlameEntries
  import opened BlameHistory
  import opened BlameCut
  import opened BlameDiff
  import opened BlameMove
  import opened BlameSearch
  import opened BlameCopy
  import opened BlameQueue
  import opened BlameMeaning
  import opened BlamePass
  import opened BlameTrail
  import opened BlameThorough

  ghost function CountOf(os: seq<Option<nat>>, o: nat): nat
  {
    if os == [] then 0 else (if os[0] == Some(o) then 1 else 0) + CountOf(os[1..], o)
  }

  /** References to origin o held neither by an entry of the scoreboard nor by a previous pointer. */
  ghost function Free(sb: Scoreboard, o: nat): int
    requires o < |sb.refcnt|
    reads sb`refcnt, sb`suspects, sb`ent, sb`previous
  {
    sb.refcnt[o] - TotalNaming(sb.suspects, o) - Naming(sb.ent, o) - CountOf(sb.previous, o)
  }

  /** Replacing one list: what it covered, weighed and held goes, what the new one does comes. */
  lemma ReplaceTotals(h: History, sus: seq<seq<Entry>>, i: nat, es: seq<Entry>, cover: multiset<int>)
    requires i < |sus| && Cover(sus[i]) == cover + Cover(es)
    ensures TotalCover(sus[i := es]) + cover == TotalCover(sus)
    ensures TotalWeight(h, sus[i := es]) + Weight(h, sus[i]) == TotalWeight(h, sus) + Weight(h, es)
    ensures forall o: nat :: TotalNaming(sus[i := es], o) + Naming(sus[i], o) == TotalNaming(sus, o) + Naming(es, o)
  {
    TotalUpdate(h, sus, i, es);
    assert TotalCover(sus[i := es]) + cover == (TotalCover(sus[i := es]) + (cover + Cover(es))) - Cover(es);
    assert TotalCover(sus) == (TotalCover(sus) + Cover(es)) - Cover(es);
  }

  /** All blame passed from one list to lower origins makes it lighter by at least a unit a line. */
  lemma PassLighter(h: History, list: seq<Entry>, sent: seq<Entry>, kept: seq<Entry>, target: nat)
    requires AllNaming(list, target) && AllNaming(kept, target) && Passed(h, sent, target)
    requires Cover(sent) + Cover(kept) == Cover(list)
    ensures Size(sent) + Size(kept) == Size(list)
    ensures Weight(h, sent) + Weight(h, kept) + Size(sent) <= Weight(h, list)
  {
    hide Cover, Weight, Size;
    CoverSize(list); CoverSize(sent); CoverSize(kept);
    assert |Cover(sent) + Cover(kept)| == |Cover(sent)| + |Cover(kept)|;
    NamedWeight(h, list, target);
    NamedWeight(h, kept, target);
    PassedWeight(h, sent, target);
    Distribute(Size(sent), Size(kept), RankOf(h, target) + 1);
  }

  lemma LowerNaming(h: History, es: seq<Entry>, p: nat, target: nat)
    requires AllGood(h, es) && AllNaming(es, p) && target < |h.commit| && h.commit[target] < |h.rank|
    requires LowerOrigin(h, p, target)
    ensures Passed(h, es, target)
  {
  }

  /** pass_whole_blame: the parent has the very same file, so it gets everything. */
  method PassWholeBlame(sb: Scoreboard, origin: nat, porigin: nat)
    requires Working(sb, origin) && porigin < |sb.suspects| && LowerOrigin(sb.h, porigin, origin)
    requires sb.h.file[origin] == sb.h.file[porigin] && Sorted(sb.suspects[origin])
    modifies sb`suspects, sb`queue, sb`refcnt
    ensures Working(sb, origin) && sb.suspects[origin] == []
    ensures sb.suspects == GiveWhole(old(sb.suspects), origin, porigin)
    ensures TotalCover(sb.suspects) == TotalCover(old(sb.suspects))
    ensures TotalWeight(sb.h, sb.suspects) + Size(old(sb.suspects)[origin]) <= TotalWeight(sb.h, old(sb.suspects))
    ensures |sb.refcnt| == old(|sb.refcnt|) && forall o: nat :: o < |sb.refcnt| ==> Free(sb, o) == old(Free(sb, o))
  {
    hide TotalCover, TotalWeight, TotalNaming, Weight, Naming, Sum, Good, HandAll, Size, Merge;
    var suspects := sb.suspects[origin];
    HealthyAt(sb, origin);
    WholeList(sb.h, suspects, origin, porigin);
    sb.suspects := sb.suspects[origin := []];
    var moved := RenameAll(sb, suspects, origin, porigin);
    NilTotals(sb.h); EmptySums();
    LowerNaming(sb.h, moved, porigin, origin);
    PassLighter(sb.h, suspects, moved, [], origin);
    ReplaceTotals(sb.h, old(sb.suspects), origin, [], Cover(suspects));
    KeptBusy(sb.h, old(sb.suspects), origin, sb.queue, []);
    Enqueue(sb, origin, porigin, moved);
  }

  lemma HealthyAt(sb: Scoreboard, o: nat)
    requires Working(sb, o)
    ensures Mine(sb.h, sb.suspects[o], o) && sb.h.commit[o] < |sb.h.rank| && o < |sb.h.commit| == |sb.h.file|
    ensures forall e :: e in sb.suspects[o] ==> e.suspect < |sb.refcnt|
  {
  }

  lemma WholeList(h: History, es: seq<Entry>, origin: nat, porigin: nat)
    requires Mine(h, es, origin) && Sorted(es) && origin < |h.file| && porigin < |h.file|
    requires h.file[origin] == h.file[porigin]
    ensures Suspects(h, HandAll(es, 0, porigin), porigin) && Cover(HandAll(es, 0, porigin)) == Cover(es)
  {
    var n := |h.file[origin]|;
    forall e | e in es ensures 0 <= e.s_lno < e.s_lno + e.num_lines <= n { assert Good(h, e); }
    LowList(h, es, 0, n, 0, origin, porigin);
    HandCover(es, 0, n, 0, porigin);
  }

  /** The loop of pass_whole_blame over the entries. */
  method RenameAll(sb: Scoreboard, suspects: seq<Entry>, origin: nat, porigin: nat) returns (r: seq<Entry>)
    requires porigin < |sb.refcnt| && forall e :: e in suspects ==> e.suspect < |sb.refcnt|
    modifies sb`refcnt
    ensures r == HandAll(suspects, 0, porigin)
    ensures |sb.refcnt| == old(|sb.refcnt|)
    ensures forall o: nat :: o < |sb.refcnt| ==> sb.refcnt[o] == old(sb.refcnt)[o] + Naming(r, o) - Naming(suspects, o)
  {
    hide HandAll, Naming;
    r := [];
    var e := suspects;
    HandNaming(suspects, porigin);
    EmptySums();
    while e != []
      invariant forall x :: x in e ==> x in suspects
      invariant r + HandAll(e, 0, porigin) == HandAll(suspects, 0, porigin)
      invariant |sb.refcnt| == old(|sb.refcnt|) && |r| + |e| == |suspects|
      invariant forall o: nat :: o < |sb.refcnt| ==>
        sb.refcnt[o] == old(sb.refcnt)[o] + (if o == porigin then |r| else 0) + Naming(e, o) - Naming(suspects, o)
    {
      HeadOff(e);
      HandStep(r, e, porigin);
      sb.IncRef(porigin);
      sb.DecRef(e[0].suspect);
      r := r + [Hand(e[0], 0, porigin)];
      e := e[1..];
    }
    HandNone(r, porigin);
  }

  lemma HandStep(r: seq<Entry>, es: seq<Entry>, p: nat)
    requires es != []
    ensures r + HandAll(es, 0, p) == (r + [Hand(es[0], 0, p)]) + HandAll(es[1..], 0, p)
  {
  }

  lemma HandNone(r: seq<Entry>, p: nat)
    ensures r + HandAll([], 0, p) == r
  {
  }

  lemma {:induction false} HandNaming(es: seq<Entry>, p: nat)
    ensures forall o: nat :: Naming(HandAll(es, 0, p), o) == if o == p then |es| else 0
  {
    if es != [] {
      HandNaming(es[1..], p);
      assert HandAll(es, 0, p)[1..] == HandAll(es[1..], 0, p);
    }
  }

  /** pass_blame_to_parent: what the diff assigns to the parent is queued there, the rest stays. */
  method PassBlameToParent(sb: Scoreboard, target: nat, parent: nat)
    requires Working(sb, target) && parent < |sb.suspects| && LowerOrigin(sb.h, parent, target)
    requires Sorted(sb.suspects[target])
    modifies sb`suspects, sb`queue, sb`refcnt
    ensures Working(sb, target) && Sorted(sb.suspects[target])
    ensures old(sb.suspects)[target] != [] ==>
      var hs := sb.h.diff(sb.h.file[parent], sb.h.file[target]);
      var kept, sent := KeptBy(old(sb.suspects)[target], hs), SentBy(old(sb.suspects)[target], hs, 0, 0, parent);
      sb.suspects == old(sb.suspects)[target := kept][parent := Merge(old(sb.suspects)[parent], sent)]
    ensures old(sb.suspects)[target] == [] ==> sb.suspects == old(sb.suspects)
    ensures TotalCover(sb.suspects) == TotalCover(old(sb.suspects))
    ensures TotalWeight(sb.h, sb.suspects) + Size(old(sb.suspects)[target])
      <= TotalWeight(sb.h, old(sb.suspects)) + Size(sb.suspects[target])
    ensures |sb.refcnt| == old(|sb.refcnt|) && forall o: nat :: o < |sb.refcnt| ==> Free(sb, o) == old(Free(sb, o))
  {
    hide TotalCover, TotalWeight, TotalNaming, Weight, Naming, Sum, Good, Size, Merge, KeptBy, SentBy;
    if sb.suspects[target] == [] { return; }
    var list := sb.suspects[target];
    var hs := sb.h.diff(sb.h.file[parent], sb.h.file[target]);
    DiffStart(sb, target, parent);
    var newdest, kept := BlameHunks(sb, hs, list, parent, sb.h.file[parent], sb.h.file[target]);
    LowerNaming(sb.h, newdest, parent, target);
    PassLighter(sb.h, list, newdest, kept, target);
    ReplaceTotals(sb.h, old(sb.suspects), target, kept, Cover(newdest));
    KeptBusy(sb.h, old(sb.suspects), target, sb.queue, kept);
    sb.suspects := sb.suspects[target := kept];
    Enqueue(sb, target, parent, newdest);
  }

  lemma DiffStart(sb: Scoreboard, target: nat, parent: nat)
    requires Working(sb, target) && parent < |sb.suspects| && Sorted(sb.suspects[target])
    ensures var list, hs := sb.suspects[target], sb.h.diff(sb.h.file[parent], sb.h.file[target]);
      && At(sb.h.file[parent], sb.h.file[target], hs, 0, 0, 0, list) && |sb.h.file[target]| <= INT_MAX
      && Suspects(sb.h, SentBy(list, hs, 0, 0, parent), parent) && Suspects(sb.h, KeptBy(list, hs), target)
      && Cover(SentBy(list, hs, 0, 0, parent)) + Cover(KeptBy(list, hs)) == Cover(list)
      && (forall e :: e in list ==> e.suspect < |sb.refcnt|) && AllNaming(list, target)
  {
    hide SentBy, KeptBy, Sum;
    var list, hs := sb.suspects[target], sb.h.diff(sb.h.file[parent], sb.h.file[target]);
    assert hs[0..] == hs;
    forall e | e in list ensures Good(sb.h, e) && e.suspect == target {}
    assert LinesIn(list, 0, |sb.h.file[target]|);
    DiffLists(sb.h, target, parent, list, hs, 0, 0);
    DiffCover(sb.h.file[parent], sb.h.file[target], list, hs, 0, 0, parent);
  }

  lemma KeptBusy(h: History, sus: seq<seq<Entry>>, busy: nat, queue: seq<nat>, kept: seq<Entry>)
    requires busy < |sus| == |h.commit| && Healthy(h, sus, busy) && Queued(h, sus, queue, Some(h.commit[busy]))
    requires Mine(h, kept, busy)
    ensures Healthy(h, sus[busy := kept], busy) && Queued(h, sus[busy := kept], queue, Some(h.commit[busy]))
  {
  }

  // ---------------------------------------------------------------------------------------------
  // pass_blame

  lemma {:induction false} CountUpdate(os: seq<Option<nat>>, i: nat, v: Option<nat>)
    requires i < |os|
    ensures forall o: nat ::
      CountOf(os[i := v], o) + (if os[i] == Some(o) then 1 else 0) == CountOf(os, o) + (if v == Some(o) then 1 else 0)
  {
    if i == 0 {
      assert os[i := v][1..] == os[1..];
    } else {
      assert os[i := v][1..] == os[1..][i - 1 := v];
      CountUpdate(os[1..], i - 1, v);
    }
  }

  lemma {:induction false} CountNone(os: seq<Option<nat>>)
    requires forall i :: 0 <= i < |os| ==> os[i] == None
    ensures forall o: nat :: CountOf(os, o) == 0
  {
    if os != [] { CountNone(os[1..]); }
  }

  /** One step of pass_blame's first loop, for parent i; done says the whole file was passed. */
  method TryParent(sb: Scoreboard, origin: nat, pass: nat, i: nat, sg: seq<Option<nat>>, ghost passes: int)
    returns (sg': seq<Option<nat>>, done: bool)
    requires Working(sb, origin) && Sorted(sb.suspects[origin]) && Scapegoats(sb.h, origin, sg) && i < |sg|
    requires pass < passes
    modifies sb`suspects, sb`queue, sb`refcnt
    ensures Working(sb, origin) && Scapegoats(sb.h, origin, sg')
    ensures TotalCover(sb.suspects) == TotalCover(old(sb.suspects))
    ensures !done ==> sb.suspects == old(sb.suspects)
    ensures done ==> sb.suspects[origin] == [] && sg' == sg
    ensures var plan := PlanFrom(sb.h, origin, passes, pass, i, sg);
      if done then plan.Whole? && sb.suspects == GiveWhole(old(sb.suspects), origin, plan.porigin)
      else plan == PlanFrom(sb.h, origin, passes, pass, i + 1, sg')
    ensures done ==>
      TotalWeight(sb.h, sb.suspects) + Size(old(sb.suspects)[origin]) <= TotalWeight(sb.h, old(sb.suspects))
    ensures |sb.refcnt| == old(|sb.refcnt|)
    ensures forall o: nat :: o < |sb.refcnt| ==> Free(sb, o) - CountOf(sg', o) == old(Free(sb, o)) - CountOf(sg, o)
  {
    hide TotalCover, TotalWeight, TotalNaming, Weight, Naming, Sum, Good, Size, Merge, Healthy, CountOf, GiveWhole,
      PlanFrom;
    PlanStep(sb.h, origin, passes, pass, i, sg);
    sg', done := sg, false;
    var p := sb.h.parents[sb.h.commit[origin]][i];
    if sg[i].Some? { return; }
    if !sb.h.parses(p) { return; }
    var found := sb.h.find(pass, p, origin);
    if found.None? { return; }
    var porigin := found.value;
    ScapegoatLower(sb.h, origin, porigin, i);
    sb.IncRef(porigin);
    if sb.h.file[porigin] == sb.h.file[origin] {
      assert forall o: nat :: o < |sb.refcnt| ==> Free(sb, o) == old(Free(sb, o)) + (if o == porigin then 1 else 0);
      PassWholeBlame(sb, origin, porigin);
      assert forall o: nat :: o < |sb.refcnt| ==> Free(sb, o) == old(Free(sb, o)) + (if o == porigin then 1 else 0);
      sb.DecRef(porigin);
      done := true;
      return;
    }
    if SameBlobBefore(sb.h, sg, i, porigin) {
      sb.DecRef(porigin);
      return;
    }
    CountUpdate(sg, i, Some(porigin));
    sg' := sg[i := Some(porigin)];
  }

  /** The two passes of pass_blame that look for a parent's version of the file. */
  method FindScapegoats(sb: Scoreboard, origin: nat) returns (sg: seq<Option<nat>>, done: bool)
    requires Working(sb, origin) && Sorted(sb.suspects[origin])
    modifies sb`suspects, sb`queue, sb`refcnt
    ensures Working(sb, origin) && Scapegoats(sb.h, origin, sg)
    ensures TotalCover(sb.suspects) == TotalCover(old(sb.suspects))
    ensures !done ==> sb.suspects == old(sb.suspects)
    ensures done ==> sb.suspects[origin] == []
    ensures var plan := PlanOf(sb.h, sb.no_whole_file_rename, origin);
      if done then plan.Whole? && sb.suspects == GiveWhole(old(sb.suspects), origin, plan.porigin)
        else plan == Goats(sg)
    ensures done ==>
      TotalWeight(sb.h, sb.suspects) + Size(old(sb.suspects)[origin]) <= TotalWeight(sb.h, old(sb.suspects))
    ensures |sb.refcnt| == old(|sb.refcnt|)
    ensures forall o: nat :: o < |sb.refcnt| ==> Free(sb, o) - CountOf(sg, o) == old(Free(sb, o))
  {
    hide TotalCover, TotalWeight, TotalNaming, Weight, Naming, Sum, Good, Size, Merge, Healthy, CountOf, Free,
      GiveWhole, PlanFrom;
    var n := |sb.h.parents[sb.h.commit[origin]]|;
    sg, done := seq(n, _ => None), false;
    CountNone(sg);
    var pass, passes := 0, if sb.no_whole_file_rename then 1 else 2;
    while pass < passes
      invariant Working(sb, origin) && Scapegoats(sb.h, origin, sg) && sb.suspects == old(sb.suspects) && 0 <= pass
      invariant PlanFrom(sb.h, origin, passes, pass, 0, sg) == PlanOf(sb.h, sb.no_whole_file_rename, origin)
      invariant |sb.refcnt| == old(|sb.refcnt|)
      invariant forall o: nat :: o < |sb.refcnt| ==> Free(sb, o) - CountOf(sg, o) == old(Free(sb, o))
    {
      var i := 0;
      while i < n
        invariant Working(sb, origin) && Scapegoats(sb.h, origin, sg) && sb.suspects == old(sb.suspects) && 0 <= i <= n
        invariant PlanFrom(sb.h, origin, passes, pass, i, sg) == PlanOf(sb.h, sb.no_whole_file_rename, origin)
        invariant |sb.refcnt| == old(|sb.refcnt|)
        invariant forall o: nat :: o < |sb.refcnt| ==> Free(sb, o) - CountOf(sg, o) == old(Free(sb, o))
      {
        sg, done := TryParent(sb, origin, pass, i, sg, passes);
        if done { return; }
        i := i + 1;
      }
      PlanEnds(sb.h, origin, passes, pass, 0, sg);
      pass := pass + 1;
    }
    PlanEnds(sb.h, origin, passes, pass, 0, sg);
  }

  /** The first scapegoat becomes origin's previous, which holds a reference. */
  method RememberPrevious(sb: Scoreboard, origin: nat, porigin: nat)
    requires origin < |sb.previous| && porigin < |sb.refcnt|
    modifies sb`refcnt, sb`previous
    ensures |sb.refcnt| == old(|sb.refcnt|)
    ensures sb.previous == if old(sb.previous)[origin] == None then old(sb.previous)[origin := Some(porigin)]
      else old(sb.previous)
    ensures forall o: nat :: o < |sb.refcnt| ==> Free(sb, o) == old(Free(sb, o))
  {
    hide TotalNaming, Naming, CountOf;
    if sb.previous[origin] == None {
      CountUpdate(sb.previous, origin, Some(porigin));
      sb.IncRef(porigin);
      sb.previous := sb.previous[origin := Some(porigin)];
    }
  }

  function FirstGoat(sg: seq<Option<nat>>): (r: Option<nat>)
    ensures r.None? <==> forall i :: 0 <= i < |sg| ==> sg[i].None?
    ensures r.Some? ==> exists i :: 0 <= i < |sg| && sg[i] == r && forall j :: 0 <= j < i ==> sg[j].None?
  {
    if sg == [] then None
    else if sg[0].Some? then sg[0]
    else
      var r := FirstGoat(sg[1..]);
      assert r.Some? ==> exists i :: 0 <= i < |sg| && sg[i] == r && forall j :: 0 <= j < i ==> sg[j].None? by {
        if r.Some? {
          var i :| 0 <= i < |sg| - 1 && sg[1..][i] == r && forall j :: 0 <= j < i ==> sg[1..][j].None?;
          assert sg[i + 1] == r && forall j :: 1 <= j < i + 1 ==> sg[j] == sg[1..][j - 1];
        }
      }
      r
  }

  /** An origin remembers the first of the versions that are diffed with, once and for all. */
  ghost function PreviousWith(before: seq<Option<nat>>, origin: nat, sg: seq<Option<nat>>): seq<Option<nat>>
  {
    if origin < |before| && before[origin] == None then before[origin := FirstGoat(sg)] else before
  }

  lemma FirstGoatIn(sg: seq<Option<nat>>, i: nat)
    requires i < |sg|
    ensures FirstGoat(sg[..i + 1]) == if FirstGoat(sg[..i]).Some? then FirstGoat(sg[..i]) else sg[i]
    ensures FirstGoat(sg[..i + 1]).Some? ==> FirstGoat(sg) == FirstGoat(sg[..i + 1])
    ensures sg[..0] == [] && sg[..|sg|] == sg && FirstGoat([]) == None
  {
    hide FirstGoat;
    assert sg[..i + 1] == sg[..i] + [sg[i]];
    assert FirstGoat([]) == None;
  }

  lemma Remembering(before: seq<Option<nat>>, origin: nat, sg: seq<Option<nat>>, i: nat)
    requires origin < |before| && i < |sg|
    ensures var now := PreviousWith(before, origin, sg[..i]);
      PreviousWith(before, origin, sg[..i + 1]) == if now[origin] == None then now[origin := sg[i]] else now
    ensures sg[i].Some? ==> PreviousWith(before, origin, sg[..i + 1]) == PreviousWith(before, origin, sg)
  {
    hide FirstGoat;
    FirstGoatIn(sg, i);
  }

  lemma RememberNone(before: seq<Option<nat>>, origin: nat, sg: seq<Option<nat>>)
    ensures PreviousWith(before, origin, sg[..0]) == before && sg[..|sg|] == sg
  {
  }

  /** The loop of pass_blame over the scapegoats: the diffs pass what they can, and the first is remembered. */
  method PassToParents(sb: Scoreboard, origin: nat, sg: seq<Option<nat>>)
    requires Working(sb, origin) && Sorted(sb.suspects[origin]) && Scapegoats(sb.h, origin, sg)
    modifies sb`suspects, sb`queue, sb`refcnt, sb`previous, sb`num_commits
    ensures Working(sb, origin) && TotalCover(sb.suspects) == TotalCover(old(sb.suspects))
    ensures sb.suspects == PassAll(sb.h, old(sb.suspects), origin, sg, 0)
    ensures TotalWeight(sb.h, sb.suspects) + Size(old(sb.suspects)[origin])
      <= TotalWeight(sb.h, old(sb.suspects)) + Size(sb.suspects[origin])
    ensures |sb.refcnt| == old(|sb.refcnt|)
    ensures forall o: nat :: o < |sb.refcnt| ==> Free(sb, o) == old(Free(sb, o))
    ensures sb.previous == PreviousWith(old(sb.previous), origin, sg) && sb.num_commits == old(sb.num_commits) + 1
  {
    hide TotalCover, TotalWeight, TotalNaming, Weight, Naming, Sum, Good, Size, Merge, Healthy, CountOf, KeptBy, SentBy,
      Queued, Free, PassAll, Scapegoats, LowerOrigin, PreviousWith;
    RememberNone(sb.previous, origin, sg);
    sb.num_commits := sb.num_commits + 1;
    var i := 0;
    while i < |sg|
      invariant 0 <= i <= |sg| && Working(sb, origin) && Sorted(sb.suspects[origin])
      invariant PassAll(sb.h, sb.suspects, origin, sg, i) == PassAll(sb.h, old(sb.suspects), origin, sg, 0)
      invariant TotalCover(sb.suspects) == TotalCover(old(sb.suspects))
      invariant TotalWeight(sb.h, sb.suspects) + Size(old(sb.suspects)[origin])
        <= TotalWeight(sb.h, old(sb.suspects)) + Size(sb.suspects[origin])
      invariant |sb.refcnt| == old(|sb.refcnt|)
      invariant forall o: nat :: o < |sb.refcnt| ==> Free(sb, o) == old(Free(sb, o))
      invariant sb.previous == PreviousWith(old(sb.previous), origin, sg[..i])
      invariant sb.num_commits == old(sb.num_commits) + 1
    {
      Remembering(old(sb.previous), origin, sg, i);
      if sg[i].Some? {
        var porigin := sg[i].value;
        GoatAt(sb.h, origin, sg, i);
        RememberPrevious(sb, origin, porigin);
        PassAllStep(sb.h, sb.suspects, origin, sg, i);
        PassBlameToParent(sb, origin, porigin);
        if sb.suspects[origin] == [] {
          PassAllEmpty(sb.h, sb.suspects, origin, sg, i + 1);
          return;
        }
      } else {
        PassAllStep(sb.h, sb.suspects, origin, sg, i);
      }
      i := i + 1;
    }
    PassAllStep(sb.h, sb.suspects, origin, sg, i);
  }

  /** Whatever only touches origin's own list leaves the rest of the scoreboard as it was. */
  lemma StageKeeps(h: History, sus: seq<seq<Entry>>, sus': seq<seq<Entry>>, origin: nat, queue: seq<nat>)
    requires origin < |sus| == |sus'| == |h.commit| && sus' == sus[origin := sus'[origin]]
    requires Healthy(h, sus, origin) && Queued(h, sus, queue, Some(h.commit[origin])) && Mine(h, sus'[origin], origin)
    ensures Healthy(h, sus', origin) && Queued(h, sus', queue, Some(h.commit[origin]))
    ensures sus'[origin := []] == sus[origin := []]
    ensures forall o: nat ::
      TotalNaming(sus', o) + Naming(sus[origin], o) == TotalNaming(sus, o) + Naming(sus'[origin], o)
  {
    hide TotalCover, TotalWeight, TotalNaming, Naming, Good, Sorted;
    TotalUpdate(h, sus, origin, sus'[origin]);
  }

  /** The lists in hand while the searches go on. */
  ghost function InHand(sb: Scoreboard, origin: nat, blamed: seq<Entry>, toosmall: seq<Entry>): Haul
    requires origin < |sb.suspects|
    reads sb`suspects
  {
    Haul(blamed, toosmall, sb.suspects[origin])
  }

  ghost predicate Hunting(sb: Scoreboard, origin: nat, toosmall: seq<Entry>)
    reads sb
  {
    Working(sb, origin) && Mine(sb.h, toosmall, origin)
  }

  lemma HuntingGood(sb: Scoreboard, origin: nat, blamed: seq<Entry>, toosmall: seq<Entry>)
    requires Hunting(sb, origin, toosmall)
    ensures GoodHaul(sb.h, InHand(sb, origin, blamed, toosmall)) && AllGood(sb.h, sb.suspects[origin])
    ensures Mine(sb.h, sb.suspects[origin], origin)
  {
  }

  /** filter_small on the scoreboard: small entries of origin's list go to the front of toosmall. */
  method SetAside(sb: Scoreboard, origin: nat, ghost blamed: seq<Entry>, toosmall: seq<Entry>, min: nat)
    returns (toosmall': seq<Entry>)
    requires Hunting(sb, origin, toosmall)
    modifies sb`suspects
    ensures Hunting(sb, origin, toosmall')
    ensures sb.suspects == old(sb.suspects)[origin := sb.suspects[origin]]
    ensures GoodHaul(sb.h, old(InHand(sb, origin, blamed, toosmall)))
    ensures InHand(sb, origin, blamed, toosmall') == SmallAside(sb.h, old(InHand(sb, origin, blamed, toosmall)), min)
    ensures forall o: nat :: o < |sb.refcnt| ==>
      Free(sb, o) - Naming(toosmall', o) == old(Free(sb, o)) - Naming(toosmall, o)
  {
    hide TotalCover, TotalNaming, Naming, Sum, Good, Healthy, AllGood, AllNaming, OfSize, CountOf, Size, Queued;
    HuntingGood(sb, origin, blamed, toosmall);
    HealthyAt(sb, origin);
    OfSizeParts(sb.h, sb.suspects[origin], min);
    OfSizeMine(sb.h, sb.suspects[origin], min, true, origin);
    OfSizeMine(sb.h, sb.suspects[origin], min, false, origin);
    var link, suspects;
    toosmall', link, suspects := FilterSmall(sb.h, toosmall, 0, sb.suspects[origin], min);
    FrontOf(toosmall, OfSize(sb.h, sb.suspects[origin], min, true));
    MineConcat(sb.h, OfSize(sb.h, sb.suspects[origin], min, true), toosmall, origin);
    NamingConcatAll(OfSize(sb.h, sb.suspects[origin], min, true), toosmall);
    StageKeeps(sb.h, sb.suspects, sb.suspects[origin := suspects], origin, sb.queue);
    sb.suspects := sb.suspects[origin := suspects];
  }

  lemma FrontOf(a: seq<Entry>, b: seq<Entry>)
    ensures a[..0] + b + a[0..] == b + a
  {
    assert a[..0] == [] && a[0..] == a;
  }

  /** After a search: the small entries it put aside come in front, and what is left is origin's list. */
  lemma HuntGoesOn(h: History, es: seq<Entry>, r: Haul, toosmall: seq<Entry>, files: seq<nat>, min: nat, origin: nat)
    requires Dealt(h, es, r, files, min, origin) && Mine(h, toosmall, origin)
    ensures Mine(h, r.left, origin) && Mine(h, r.aside + toosmall, origin)
  {
    hide Good, Cover3, Sum;
  }

  /** pass_blame's loop for moves in the parents' versions of the file. */
  method FindMoves(sb: Scoreboard, origin: nat, sg: seq<Option<nat>>, blamed: seq<Entry>, toosmall: seq<Entry>)
    returns (blamed': seq<Entry>, toosmall': seq<Entry>)
    requires Hunting(sb, origin, toosmall) && Scapegoats(sb.h, origin, sg)
    modifies sb`suspects, sb`refcnt
    ensures Hunting(sb, origin, toosmall')
    ensures sb.suspects == old(sb.suspects)[origin := sb.suspects[origin]] && |sb.refcnt| == old(|sb.refcnt|)
    ensures GoodHaul(sb.h, old(InHand(sb, origin, blamed, toosmall)))
    ensures InHand(sb, origin, blamed', toosmall')
      == MoveFrom(sb.h, origin, sg, 0, sb.move_score, old(InHand(sb, origin, blamed, toosmall)))
    ensures forall o: nat :: o < |sb.refcnt| ==>
      Free(sb, o) - Naming(blamed', o) - Naming(toosmall', o)
      == old(Free(sb, o)) - Naming(blamed, o) - Naming(toosmall, o)
  {
    hide TotalCover, TotalNaming, Naming, Sum, Good, Healthy, CountOf, Size, Mine, Queued, MoveFrom, Search, Dealt,
      GoodHaul, Scapegoats;
    blamed', toosmall' := blamed, toosmall;
    HuntingGood(sb, origin, blamed, toosmall);
    ghost var all := MoveFrom(sb.h, origin, sg, 0, sb.move_score, InHand(sb, origin, blamed, toosmall));
    var i := 0;
    if sb.suspects[origin] == [] {
      MoveFromStep(sb.h, origin, sg, i, sb.move_score, InHand(sb, origin, blamed', toosmall'));
      return;
    }
    while i < |sg|
      invariant i <= |sg| && Hunting(sb, origin, toosmall') && GoodHaul(sb.h, InHand(sb, origin, blamed', toosmall'))
      invariant sb.suspects[origin] != []
      invariant sb.suspects == old(sb.suspects)[origin := sb.suspects[origin]] && |sb.refcnt| == old(|sb.refcnt|)
      invariant MoveFrom(sb.h, origin, sg, i, sb.move_score, InHand(sb, origin, blamed', toosmall')) == all
      invariant forall o: nat :: o < |sb.refcnt| ==>
        Free(sb, o) - Naming(blamed', o) - Naming(toosmall', o)
        == old(Free(sb, o)) - Naming(blamed, o) - Naming(toosmall, o)
    {
      MoveFromStep(sb.h, origin, sg, i, sb.move_score, InHand(sb, origin, blamed', toosmall'));
      if sg[i].Some? {
        blamed', toosmall' := MoveInParent(sb, origin, sg[i].value, blamed', toosmall', sg, i);
        HuntingGood(sb, origin, blamed', toosmall');
        if sb.suspects[origin] == [] {
          MoveFromStep(sb.h, origin, sg, i + 1, sb.move_score, InHand(sb, origin, blamed', toosmall'));
          return;
        }
      }
      i := i + 1;
    }
    MoveFromStep(sb.h, origin, sg, i, sb.move_score, InHand(sb, origin, blamed', toosmall'));
  }

  /** find_move_in_parent for one parent's version. */
  method MoveInParent(sb: Scoreboard, origin: nat, porigin: nat, blamed: seq<Entry>, toosmall: seq<Entry>,
                      ghost sg: seq<Option<nat>>, ghost i: nat)
    returns (blamed': seq<Entry>, toosmall': seq<Entry>)
    requires Hunting(sb, origin, toosmall) && Scapegoats(sb.h, origin, sg) && i < |sg| && sg[i] == Some(porigin)
    modifies sb`suspects, sb`refcnt
    ensures Hunting(sb, origin, toosmall')
    ensures sb.suspects == old(sb.suspects)[origin := sb.suspects[origin]] && |sb.refcnt| == old(|sb.refcnt|)
    ensures AllGood(sb.h, old(sb.suspects)[origin]) && FilesExist(sb.h, [porigin])
    ensures InHand(sb, origin, blamed', toosmall') == Further(old(InHand(sb, origin, blamed, toosmall)),
      Search(sb.h, old(sb.suspects)[origin], [porigin], sb.move_score))
    ensures forall o: nat :: o < |sb.refcnt| ==>
      Free(sb, o) - Naming(blamed', o) - Naming(toosmall', o)
      == old(Free(sb, o)) - Naming(blamed, o) - Naming(toosmall, o)
  {
    hide TotalCover, TotalNaming, Naming, Sum, Good, Healthy, CountOf, Size, Mine, Queued, Search, Dealt, AllSmall;
    HuntingGood(sb, origin, blamed, toosmall);
    ScapegoatLower(sb.h, origin, porigin, i);
    HealthyAt(sb, origin);
    ghost var sus := sb.suspects;
    OneLower(sb.h, porigin, origin);
    blamed', toosmall' := FindMoveInParent(sb, blamed, toosmall, origin, porigin);
    HuntGoesOn(sb.h, sus[origin], Search(sb.h, sus[origin], [porigin], sb.move_score), toosmall, [porigin],
               sb.move_score, origin);
    StageKeeps(sb.h, sus, sb.suspects, origin, sb.queue);
  }

  /** pass_blame's loop for copies from any file of a parent. */
  method FindCopies(sb: Scoreboard, origin: nat, sg: seq<Option<nat>>, blamed: seq<Entry>, toosmall: seq<Entry>)
    returns (blamed': seq<Entry>, toosmall': seq<Entry>)
    requires Hunting(sb, origin, toosmall) && Scapegoats(sb.h, origin, sg) && sb.suspects[origin] != []
    modifies sb`suspects, sb`refcnt
    ensures Hunting(sb, origin, toosmall')
    ensures sb.suspects == old(sb.suspects)[origin := sb.suspects[origin]] && |sb.refcnt| == old(|sb.refcnt|)
    ensures GoodHaul(sb.h, old(InHand(sb, origin, blamed, toosmall)))
    ensures InHand(sb, origin, blamed', toosmall')
      == CopyFrom(sb.h, origin, sg, 0, sb.copy_score, old(InHand(sb, origin, blamed, toosmall)))
    ensures forall o: nat :: o < |sb.refcnt| ==>
      Free(sb, o) - Naming(blamed', o) - Naming(toosmall', o)
      == old(Free(sb, o)) - Naming(blamed, o) - Naming(toosmall, o)
  {
    hide TotalCover, TotalNaming, Naming, Sum, Good, Healthy, CountOf, Size, Mine, Queued, CopyFrom, Search, Dealt,
      GoodHaul;
    blamed', toosmall' := blamed, toosmall;
    HuntingGood(sb, origin, blamed, toosmall);
    ghost var all := CopyFrom(sb.h, origin, sg, 0, sb.copy_score, InHand(sb, origin, blamed, toosmall));
    var ps := sb.h.parents[sb.h.commit[origin]];
    var i := 0;
    while i < |ps|
      invariant i <= |ps| && Hunting(sb, origin, toosmall') && GoodHaul(sb.h, InHand(sb, origin, blamed', toosmall'))
      invariant sb.suspects[origin] != []
      invariant sb.suspects == old(sb.suspects)[origin := sb.suspects[origin]] && |sb.refcnt| == old(|sb.refcnt|)
      invariant CopyFrom(sb.h, origin, sg, i, sb.copy_score, InHand(sb, origin, blamed', toosmall')) == all
      invariant forall o: nat :: o < |sb.refcnt| ==>
        Free(sb, o) - Naming(blamed', o) - Naming(toosmall', o)
        == old(Free(sb, o)) - Naming(blamed, o) - Naming(toosmall, o)
    {
      CopyFromStep(sb.h, origin, sg, i, sb.copy_score, InHand(sb, origin, blamed', toosmall'));
      blamed', toosmall' := CopyInParent(sb, origin, ps[i], blamed', toosmall', sg, i);
      HuntingGood(sb, origin, blamed', toosmall');
      if sb.suspects[origin] == [] {
        CopyFromStep(sb.h, origin, sg, i + 1, sb.copy_score, InHand(sb, origin, blamed', toosmall'));
        return;
      }
      i := i + 1;
    }
    CopyFromStep(sb.h, origin, sg, i, sb.copy_score, InHand(sb, origin, blamed', toosmall'));
  }

  /** find_copy_in_parent for one parent. */
  method CopyInParent(sb: Scoreboard, origin: nat, parent: nat, blamed: seq<Entry>, toosmall: seq<Entry>,
                      sg: seq<Option<nat>>, i: nat)
    returns (blamed': seq<Entry>, toosmall': seq<Entry>)
    requires Hunting(sb, origin, toosmall) && Scapegoats(sb.h, origin, sg)
    requires i < |sg| && parent == sb.h.parents[sb.h.commit[origin]][i]
    modifies sb`suspects, sb`refcnt
    ensures Hunting(sb, origin, toosmall')
    ensures sb.suspects == old(sb.suspects)[origin := sb.suspects[origin]] && |sb.refcnt| == old(|sb.refcnt|)
    ensures AllGood(sb.h, old(sb.suspects)[origin])
    ensures InHand(sb, origin, blamed', toosmall') == Further(old(InHand(sb, origin, blamed, toosmall)),
      Search(sb.h, old(sb.suspects)[origin], CopyFiles(sb.h, origin, sg, i), sb.copy_score))
    ensures forall o: nat :: o < |sb.refcnt| ==>
      Free(sb, o) - Naming(blamed', o) - Naming(toosmall', o)
      == old(Free(sb, o)) - Naming(blamed, o) - Naming(toosmall, o)
  {
    hide TotalCover, TotalNaming, Naming, Sum, Good, Healthy, CountOf, Size, Mine, Queued, Search, Dealt, Tried,
      AllSmall;
    HuntingGood(sb, origin, blamed, toosmall);
    HealthyAt(sb, origin);
    ghost var sus, files := sb.suspects, CopyFiles(sb.h, origin, sg, i);
    blamed', toosmall' := FindCopyInParent(sb, blamed, toosmall, origin, parent, sg[i]);
    HuntGoesOn(sb.h, sus[origin], Search(sb.h, sus[origin], files, sb.copy_score), toosmall, files,
               sb.copy_score, origin);
    StageKeeps(sb.h, sus, sb.suspects, origin, sb.queue);
  }

  /** The small entries rejoin origin's list, merged into it or in front of it. */
  method Rejoin(sb: Scoreboard, origin: nat, toosmall: seq<Entry>, merge: bool)
    requires Hunting(sb, origin, toosmall)
    modifies sb`suspects
    ensures Hunting(sb, origin, [])
    ensures sb.suspects == old(sb.suspects)[origin :=
      if merge then Merge(old(sb.suspects)[origin], toosmall) else toosmall + old(sb.suspects)[origin]]
    ensures forall o: nat :: o < |sb.refcnt| ==> Free(sb, o) == old(Free(sb, o)) - Naming(toosmall, o)
  {
    hide TotalCover, TotalNaming, Naming, Sum, Good, Healthy, CountOf, Size, Merge, Queued;
    HuntingGood(sb, origin, [], toosmall);
    ghost var had := sb.suspects[origin];
    var joined;
    if merge {
      joined := BlameMerge(sb.suspects[origin], toosmall);
      MergeBag(sb.suspects[origin], toosmall);
    } else {
      joined := toosmall + sb.suspects[origin];
    }
    BagCounts(joined, toosmall + had);
    NamingConcatAll(toosmall, had);
    forall e | e in joined ensures e in toosmall || e in had { assert e in multiset(joined); }
    StageKeeps(sb.h, sb.suspects, sb.suspects[origin := joined], origin, sb.queue);
    sb.suspects := sb.suspects[origin := joined];
  }

  ghost function OptionsOf(sb: Scoreboard, move: bool, copy: bool): Options
  {
    Options(sb.no_whole_file_rename, move, copy, sb.move_score, sb.copy_score)
  }

  /** The -M part of pass_blame. */
  method SearchMoves(sb: Scoreboard, origin: nat, sg: seq<Option<nat>>, move: bool, copy: bool)
    returns (blamed: seq<Entry>, toosmall: seq<Entry>)
    requires Working(sb, origin) && Scapegoats(sb.h, origin, sg)
    modifies sb`suspects, sb`refcnt
    ensures Hunting(sb, origin, toosmall)
    ensures sb.suspects == old(sb.suspects)[origin := sb.suspects[origin]] && |sb.refcnt| == old(|sb.refcnt|)
    ensures AllGood(sb.h, old(sb.suspects)[origin])
    ensures InHand(sb, origin, blamed, toosmall)
      == Moved(sb.h, OptionsOf(sb, move, copy), origin, sg, old(sb.suspects)[origin])
    ensures forall o: nat :: o < |sb.refcnt| ==>
      Free(sb, o) - Naming(blamed, o) - Naming(toosmall, o) == old(Free(sb, o))
  {
    hide Free, Naming, Good, Scapegoats, MoveFrom, SmallAside, Healthy, Queued;
    EmptySums();
    blamed, toosmall := [], [];
    HuntingGood(sb, origin, blamed, toosmall);
    if move {
      toosmall := SetAside(sb, origin, blamed, toosmall, sb.move_score);
      blamed, toosmall := FindMoves(sb, origin, sg, blamed, toosmall);
    }
  }

  /** The change of the threshold between the two searches. */
  method Resize(sb: Scoreboard, origin: nat, move: bool, copy: bool, ghost blamed: seq<Entry>, toosmall: seq<Entry>)
    returns (toosmall': seq<Entry>)
    requires Hunting(sb, origin, toosmall)
    modifies sb`suspects
    ensures Hunting(sb, origin, toosmall')
    ensures sb.suspects == old(sb.suspects)[origin := sb.suspects[origin]]
    ensures GoodHaul(sb.h, old(InHand(sb, origin, blamed, toosmall)))
    ensures InHand(sb, origin, blamed, toosmall')
      == Resized(sb.h, OptionsOf(sb, move, copy), old(InHand(sb, origin, blamed, toosmall)))
    ensures forall o: nat :: o < |sb.refcnt| ==>
      Free(sb, o) - Naming(toosmall', o) == old(Free(sb, o)) - Naming(toosmall, o)
  {
    hide Free, Naming, Good, SmallAside, Healthy, Queued, Merge;
    EmptySums();
    HuntingGood(sb, origin, blamed, toosmall);
    toosmall' := toosmall;
    if sb.copy_score > sb.move_score {
      toosmall' := SetAside(sb, origin, blamed, toosmall', sb.copy_score);
    } else if sb.copy_score < sb.move_score {
      MergeBag(sb.suspects[origin], toosmall);
      Rejoin(sb, origin, toosmall, true);
      toosmall' := [];
      toosmall' := SetAside(sb, origin, blamed, toosmall', sb.copy_score);
    }
  }

  /** The -M and -C parts of pass_blame. */
  method SearchParents(sb: Scoreboard, origin: nat, sg: seq<Option<nat>>, move: bool, copy: bool)
    returns (blamed: seq<Entry>, toosmall: seq<Entry>)
    requires Working(sb, origin) && Scapegoats(sb.h, origin, sg)
    modifies sb`suspects, sb`refcnt
    ensures Hunting(sb, origin, toosmall)
    ensures sb.suspects == old(sb.suspects)[origin := sb.suspects[origin]] && |sb.refcnt| == old(|sb.refcnt|)
    ensures AllGood(sb.h, old(sb.suspects)[origin])
    ensures InHand(sb, origin, blamed, toosmall)
      == SearchAll(sb.h, OptionsOf(sb, move, copy), origin, sg, old(sb.suspects)[origin])
    ensures forall o: nat :: o < |sb.refcnt| ==>
      Free(sb, o) - Naming(blamed, o) - Naming(toosmall, o) == old(Free(sb, o))
  {
    hide Free, Naming, Good, Scapegoats, CopyFrom, Resized, Moved, Healthy, Queued;
    blamed, toosmall := SearchMoves(sb, origin, sg, move, copy);
    if copy {
      toosmall := Resize(sb, origin, move, copy, blamed, toosmall);
      HuntingGood(sb, origin, blamed, toosmall);
      if sb.suspects[origin] == [] {
        CopyFromStep(sb.h, origin, sg, 0, sb.copy_score, InHand(sb, origin, blamed, toosmall));
        return;
      }
      blamed, toosmall := FindCopies(sb, origin, sg, blamed, toosmall);
    }
  }

  /** What searching one origin's list comes to in the totals: every line passed is lighter by at least a unit. */
  lemma PassTotals(h: History, sus: seq<seq<Entry>>, origin: nat, l: Haul)
    requires origin < |sus| && Mine(h, sus[origin], origin) && Passed(h, l.passed, origin)
    requires Mine(h, l.aside, origin) && Mine(h, l.left, origin)
    requires Cover(l.passed) + Cover(l.aside) + Cover(l.left) == Cover(sus[origin])
    ensures TotalCover(sus[origin := l.left]) + Cover(l.passed) + Cover(l.aside) == TotalCover(sus)
    ensures TotalWeight(h, sus[origin := l.left]) + Weight(h, l.passed) + Weight(h, l.aside) + Size(l.passed)
      <= TotalWeight(h, sus)
    ensures Size(l.aside + l.left) + Size(l.passed) == Size(sus[origin])
  {
    hide TotalCover, TotalWeight, Sum, Weight, Size, RankOf, Good;
    var had := sus[origin];
    TotalUpdate(h, sus, origin, l.left);
    MovedCover(TotalCover(sus[origin := l.left]), TotalCover(sus), Cover(had), Cover(l.passed), Cover(l.aside),
               Cover(l.left));
    CoverSize(had); CoverSize(l.passed); CoverSize(l.aside); CoverSize(l.left);
    assert |Cover(l.passed) + Cover(l.aside) + Cover(l.left)| == |Cover(l.passed)| + |Cover(l.aside)| + |Cover(l.left)|;
    SizeConcat(l.aside, l.left);
    NamedWeight(h, had, origin); NamedWeight(h, l.aside, origin); NamedWeight(h, l.left, origin);
    PassedWeight(h, l.passed, origin);
    Distribute(Size(l.aside), Size(l.left), RankOf(h, origin) + 1);
    Distribute(Size(l.passed), Size(l.aside) + Size(l.left), RankOf(h, origin) + 1);
  }

  lemma MovedCover<T>(t: multiset<T>, t0: multiset<T>, had: multiset<T>, p: multiset<T>, a: multiset<T>, l: multiset<T>)
    requires t + had == t0 + l && p + a + l == had
    ensures t + p + a == t0
  {
    assert t + had == (t + p + a) + l;
    assert t + p + a == (t + had) - l && t0 == (t0 + l) - l;
  }

  lemma NonePassed(h: History, es: seq<Entry>, origin: nat)
    requires origin < |h.commit| && h.commit[origin] < |h.rank|
    ensures Passed(h, [], origin) && Mine(h, [], origin) && [] + es == es
    ensures Cover([]) + Cover([]) + Cover(es) == Cover(es)
  {
    EmptySums();
  }

  /** pass_blame from finish on: what was passed is distributed, what was too small rejoins origin's list. */
  method Finish(sb: Scoreboard, origin: nat, blamed: seq<Entry>, toosmall: seq<Entry>, sg: seq<Option<nat>>)
    requires Hunting(sb, origin, toosmall) && Passed(sb.h, blamed, origin)
    requires forall i :: 0 <= i < |sg| && sg[i].Some? ==> sg[i].value < |sb.refcnt|
    modifies sb`suspects, sb`queue, sb`refcnt
    ensures Working(sb, origin)
    ensures sb.suspects == Distributed(old(sb.suspects), blamed)[origin := toosmall + old(sb.suspects)[origin]]
    ensures TotalCover(sb.suspects) == TotalCover(old(sb.suspects)) + Cover(blamed) + Cover(toosmall)
    ensures TotalWeight(sb.h, sb.suspects)
      == TotalWeight(sb.h, old(sb.suspects)) + Weight(sb.h, blamed) + Weight(sb.h, toosmall)
    ensures |sb.refcnt| == old(|sb.refcnt|)
    ensures forall o: nat :: o < |sb.refcnt| ==>
      Free(sb, o) == old(Free(sb, o)) - Naming(blamed, o) - Naming(toosmall, o) - CountOf(sg, o)
  {
    hide TotalCover, TotalWeight, TotalNaming, Naming, Sum, Good, Healthy, CountOf, Weight, Queued, Distributed, Passed;
    DistributeBlame(sb, origin, blamed);
    JoinedTotals(sb.h, sb.suspects, origin, toosmall);
    Rejoin(sb, origin, toosmall, false);
    DropScapegoats(sb, sg);
  }

  lemma JoinedTotals(h: History, sus: seq<seq<Entry>>, origin: nat, toosmall: seq<Entry>)
    requires origin < |sus|
    ensures TotalCover(sus[origin := toosmall + sus[origin]]) == TotalCover(sus) + Cover(toosmall)
    ensures TotalWeight(h, sus[origin := toosmall + sus[origin]]) == TotalWeight(h, sus) + Weight(h, toosmall)
  {
    hide TotalCover, TotalWeight, Sum, Weight;
    var had, joined := sus[origin], toosmall + sus[origin];
    TotalUpdate(h, sus, origin, joined);
    CoverCat(toosmall, had);
    WeightConcat(h, toosmall, had);
    Cancel(TotalCover(sus[origin := joined]), TotalCover(sus), Cover(had), Cover(toosmall));
  }

  /** The references pass_blame held on its scapegoats go. */
  method DropScapegoats(sb: Scoreboard, sg: seq<Option<nat>>)
    requires forall i :: 0 <= i < |sg| && sg[i].Some? ==> sg[i].value < |sb.refcnt|
    modifies sb`refcnt
    ensures |sb.refcnt| == old(|sb.refcnt|)
    ensures forall o: nat :: o < |sb.refcnt| ==> sb.refcnt[o] == old(sb.refcnt)[o] - CountOf(sg, o)
  {
    var i := 0;
    assert sg[0..] == sg;
    while i < |sg|
      invariant i <= |sg| && |sb.refcnt| == old(|sb.refcnt|)
      invariant forall o: nat :: o < |sb.refcnt| ==>
        sb.refcnt[o] == old(sb.refcnt)[o] - CountOf(sg, o) + CountOf(sg[i..], o)
    {
      assert sg[i..][0] == sg[i] && sg[i..][1..] == sg[i + 1..];
      if sg[i].Some? { sb.DecRef(sg[i].value); }
      i := i + 1;
    }
  }

  lemma GoatPerParent(h: History, o: nat, sg: seq<Option<nat>>)
    requires o < |h.commit| && h.commit[o] < |h.parents| && Scapegoats(h, o, sg)
    ensures |sg| == |h.parents[h.commit[o]]|
  {
  }

  /** What the origins remember after pass_blame. */
  ghost function PreviousAfter(h: History, noWhole: bool, before: seq<Option<nat>>, o: nat): seq<Option<nat>>
    requires h.Valid() && o < |h.commit|
  {
    if h.parents[h.commit[o]] == [] then before else
    match PlanOf(h, noWhole, o)
    case Whole(p) => before
    case Goats(sg) => PreviousWith(before, o, sg)
  }

  /** pass_blame comes to the diffs: no parent has the whole file. */
  ghost predicate Diffed(sb: Scoreboard, origin: nat)
    requires sb.h.Valid() && origin < |sb.h.commit|
  {
    sb.h.parents[sb.h.commit[origin]] != [] && PlanOf(sb.h, sb.no_whole_file_rename, origin).Goats?
  }

  /** The part of pass_blame that always runs: the search for the parents' versions, and their diffs. */
  method PassDiffs(sb: Scoreboard, origin: nat) returns (sg: seq<Option<nat>>)
    requires Working(sb, origin) && Sorted(sb.suspects[origin])
    modifies sb`suspects, sb`queue, sb`refcnt, sb`previous, sb`num_commits
    ensures Working(sb, origin) && (sg == [] || Scapegoats(sb.h, origin, sg))
    ensures TotalCover(sb.suspects) == TotalCover(old(sb.suspects))
    ensures TotalWeight(sb.h, sb.suspects) + Size(old(sb.suspects)[origin])
      <= TotalWeight(sb.h, old(sb.suspects)) + Size(sb.suspects[origin])
    ensures |sb.refcnt| == old(|sb.refcnt|)
    ensures forall o: nat :: o < |sb.refcnt| ==> Free(sb, o) - CountOf(sg, o) == old(Free(sb, o))
    ensures sb.suspects == AfterPass(sb.h, sb.no_whole_file_rename, old(sb.suspects), origin)
    ensures sb.previous == PreviousAfter(sb.h, sb.no_whole_file_rename, old(sb.previous), origin)
    ensures sb.num_commits == old(sb.num_commits) + if Diffed(sb, origin) then 1 else 0
    ensures sg == [] <==> sb.h.parents[sb.h.commit[origin]] == []
    ensures sb.suspects[origin] != [] && sg != [] ==> PlanOf(sb.h, sb.no_whole_file_rename, origin) == Goats(sg)
  {
    hide TotalCover, TotalWeight, TotalNaming, Naming, Sum, Good, Healthy, CountOf, Size, Weight, RankOf, Queued, Free,
      PlanOf, PassAll, GiveWhole, Scapegoats, PreviousWith;
    sg := [];
    CountNone([]);
    if |sb.h.parents[sb.h.commit[origin]]| != 0 {
      var done;
      sg, done := FindScapegoats(sb, origin);
      GoatPerParent(sb.h, origin, sg);
      if !done {
        PassToParents(sb, origin, sg);
      }
    }
  }

  /**
   pass_blame: all that origin is suspected for is looked for in its parents.  The lists become exactly what
   AfterBlame says.  Every final line stays in exactly one list, every list stays a suspect list, no reference
   is leaked or lost, and every line passed makes the scoreboard lighter.
   */
  method PassBlame(sb: Scoreboard, origin: nat, move: bool, copy: bool)
    requires Working(sb, origin) && Sorted(sb.suspects[origin])
    modifies sb`suspects, sb`queue, sb`refcnt, sb`previous, sb`num_commits
    ensures Working(sb, origin) && Suspects(sb.h, old(sb.suspects)[origin], origin)
    ensures sb.suspects == AfterBlame(sb.h, OptionsOf(sb, move, copy), old(sb.suspects), origin)
    ensures sb.previous == PreviousAfter(sb.h, sb.no_whole_file_rename, old(sb.previous), origin)
    ensures sb.num_commits == old(sb.num_commits) + if Diffed(sb, origin) then 1 else 0
    ensures TotalCover(sb.suspects) == TotalCover(old(sb.suspects))
    ensures TotalWeight(sb.h, sb.suspects) + Size(old(sb.suspects)[origin])
      <= TotalWeight(sb.h, old(sb.suspects)) + Size(sb.suspects[origin])
    ensures |sb.refcnt| == old(|sb.refcnt|)
    ensures forall o: nat :: o < |sb.refcnt| ==> Free(sb, o) == old(Free(sb, o))
  {
    hide TotalCover, TotalWeight, TotalNaming, Naming, Sum, Good, Healthy, CountOf, Size, Weight, Queued, Free,
      AfterPass, SearchAll, Distributed, PlanOf, PreviousAfter, Hunted;
    var blamed: seq<Entry>, toosmall: seq<Entry> := [], [];
    HealthyAt(sb, origin);
    AfterPassSuspects(sb.h, sb.no_whole_file_rename, sb.suspects, origin);
    var sg := PassDiffs(sb, origin);
    ghost var op, sus1, had := OptionsOf(sb, move, copy), sb.suspects, sb.suspects[origin];
    EmptySums();
    NilTotals(sb.h);
    NoneDistributed(sus1);
    NonePassed(sb.h, had, origin);
    if |sg| != 0 && sb.suspects[origin] != [] {
      SearchAllMeans(sb.h, op, origin, sg, had);
      HuntParts(sb.h, op, origin, sg, had, SearchAll(sb.h, op, origin, sg, had));
      blamed, toosmall := SearchParents(sb, origin, sg, move, copy);
    }
    SgBounds(sb, origin, sg);
    HuntingGood(sb, origin, blamed, toosmall);
    PassTotals(sb.h, sus1, origin, InHand(sb, origin, blamed, toosmall));
    assert sb.suspects == sus1[origin := sb.suspects[origin]];
    SameElsewhere(sus1, sb.suspects[origin], blamed, toosmall, origin);
    Finish(sb, origin, blamed, toosmall, sg);
  }

  lemma SameElsewhere(sus: seq<seq<Entry>>, left: seq<Entry>, blamed: seq<Entry>, toosmall: seq<Entry>, origin: nat)
    requires origin < |sus|
    ensures Distributed(sus[origin := left], blamed)[origin := toosmall + left]
      == Distributed(sus, blamed)[origin := toosmall + left]
  {
  }

  lemma SgBounds(sb: Scoreboard, origin: nat, sg: seq<Option<nat>>)
    requires Working(sb, origin) && (sg == [] || Scapegoats(sb.h, origin, sg))
    ensures forall i :: 0 <= i < |sg| && sg[i].Some? ==> sg[i].value < |sb.refcnt|
  {
  }

  // ---------------------------------------------------------------------------------------------
  // assign_blame

  /** Between two rounds of assign_blame: every list is in order, and whoever has suspects is queued or current. */
  ghost predicate Ready(sb: Scoreboard, current: Option<nat>)
    reads sb
  {
    && sb.Shape()
    && (forall o :: 0 <= o < |sb.suspects| ==> Suspects(sb.h, sb.suspects[o], o))
    && Queued(sb.h, sb.suspects, sb.queue, current)
    && (current.Some? ==> current.value < |sb.h.parents|)
    && AllGood(sb.h, sb.ent)
    && (forall e :: e in sb.ent ==> e.suspect < |sb.guilty| && sb.guilty[e.suspect])
  }

  /** prio_queue_get: the newest commit of the queue. */
  method PrioQueueGet(sb: Scoreboard) returns (r: Option<nat>)
    requires Ready(sb, None)
    modifies sb`queue
    ensures Ready(sb, r)
    ensures r.None? <==> old(sb.queue) == []
    ensures r.None? ==> sb.queue == []
    ensures r.Some? ==> r.value in old(sb.queue) && |sb.queue| + 1 == |old(sb.queue)|
    ensures r.Some? ==> forall c :: c in old(sb.queue) ==> sb.h.date[c] <= sb.h.date[r.value]
  {
    forall k | 0 <= k < |sb.queue| ensures sb.queue[k] < |sb.h.parents| { assert sb.queue[k] in sb.queue; }
    if sb.queue == [] { return None; }
    var best, i := 0, 1;
    while i < |sb.queue|
      invariant best < |sb.queue| && 1 <= i <= |sb.queue|
      invariant forall k :: 0 <= k < i ==> sb.h.date[sb.queue[k]] <= sb.h.date[sb.queue[best]]
    {
      if sb.h.date[sb.queue[i]] > sb.h.date[sb.queue[best]] { best := i; }
      i := i + 1;
    }
    r := Some(sb.queue[best]);
    ghost var was := sb.queue;
    sb.queue := sb.queue[..best] + sb.queue[best + 1..];
    forall c | c in was && c != was[best] ensures c in sb.queue {
      var k :| 0 <= k < |was| && was[k] == c;
      if k < best { assert sb.queue[k] == c; } else { assert sb.queue[k - 1] == c; }
    }
  }

  /** The first origin on the commit's chain that has suspects. */
  method FindSuspect(sb: Scoreboard, commit: nat) returns (r: Option<nat>)
    requires sb.Shape() && commit < |sb.h.parents|
    ensures r.None? <==> !Pending(sb.h, sb.suspects, commit)
    ensures r.Some? ==> r.value < |sb.suspects| && sb.h.commit[r.value] == commit && sb.suspects[r.value] != []
  {
    var chain, i := sb.h.chain[commit], 0;
    while i < |chain|
      invariant i <= |chain| && forall k :: 0 <= k < i ==> sb.suspects[chain[k]] == []
    {
      if sb.suspects[chain[i]] != [] { return Some(chain[i]); }
      i := i + 1;
    }
    return None;
  }

  /** Origin's list apart, the scoreboard is what the other origins have. */
  lemma Apart(h: History, sus: seq<seq<Entry>>, origin: nat)
    requires origin < |sus| && Mine(h, sus[origin], origin)
    ensures TotalCover(sus) == TotalCover(sus[origin := []]) + Cover(sus[origin])
    ensures TotalWeight(h, sus) == TotalWeight(h, sus[origin := []]) + Size(sus[origin]) * (RankOf(h, origin) + 1)
  {
    NilTotals(h);
    ReplaceTotals(h, sus, origin, [], Cover(sus[origin]));
    NamedWeight(h, sus[origin], origin);
  }

  /** The suspect takes responsibility for whatever is left with it. */
  method TakeResponsibility(sb: Scoreboard, suspect: nat)
    requires Working(sb, suspect) && AllGood(sb.h, sb.ent)
    requires forall e :: e in sb.ent ==> e.suspect < |sb.guilty| && sb.guilty[e.suspect]
    modifies sb`suspects, sb`ent, sb`guilty
    ensures Ready(sb, Some(sb.h.commit[suspect]))
    ensures sb.suspects == old(sb.suspects)[suspect := []] && sb.ent == old(sb.suspects)[suspect] + old(sb.ent)
    ensures sb.guilty == if old(sb.suspects)[suspect] == [] then old(sb.guilty) else old(sb.guilty)[suspect := true]
    ensures TotalCover(sb.suspects) + Cover(sb.ent) == TotalCover(old(sb.suspects)) + Cover(old(sb.ent))
    ensures TotalWeight(sb.h, sb.suspects) + Size(old(sb.suspects)[suspect]) <= TotalWeight(sb.h, old(sb.suspects))
    ensures forall o: nat :: o < |sb.refcnt| ==> Free(sb, o) == old(Free(sb, o))
  {
    hide TotalCover, TotalWeight, TotalNaming, Naming, Sum, Good, CountOf, Size, Weight, RankOf;
    HealthyAt(sb, suspect);
    var ent := sb.suspects[suspect];
    Apart(sb.h, sb.suspects, suspect);
    AtLeast(Size(ent), RankOf(sb.h, suspect));
    NilTotals(sb.h);
    TotalUpdate(sb.h, sb.suspects, suspect, []);
    CoverCat(ent, sb.ent);
    NamingConcatAll(ent, sb.ent);
    TripleSum(TotalCover(sb.suspects[suspect := []]), Cover(ent), Cover(sb.ent));
    if ent != [] {
      sb.guilty := sb.guilty[suspect := true];
      sb.ent := ent + sb.ent;
      sb.suspects := sb.suspects[suspect := []];
    }
    assert sb.ent == ent + old(sb.ent);
    assert sb.suspects == old(sb.suspects)[suspect := []];
  }

  lemma AtLeast(n: nat, r: nat)
    ensures n <= n * (r + 1)
  {
    Distribute(r, 1, n);
  }

  lemma TripleSum<T>(a: multiset<T>, b: multiset<T>, c: multiset<T>)
    ensures a + (b + c) == (a + b) + c
  {
  }

  /**
   assign_blame: the main loop.  It ends; then no origin has suspects any more, every final line that was in
   some list is in the list of final entries, exactly as often, and every entry has the text of the lines of
   its origin that it points at.  References still match the entries and previous pointers that hold them.
   If nothing becomes a stop on the way, every line is at an end of one of its ways, and no search could have
   taken any of an entry further; without -M and -C, a line has only one end.
   */
  method AssignBlame(sb: Scoreboard, move: bool, copy: bool)
    requires Ready(sb, None)
    modifies sb`suspects, sb`queue, sb`refcnt, sb`previous, sb`num_commits, sb`ent, sb`guilty, sb`uninteresting
    ensures Ready(sb, None) && sb.queue == [] && forall o :: 0 <= o < |sb.suspects| ==> sb.suspects[o] == []
    ensures Cover(sb.ent) == TotalCover(old(sb.suspects)) + Cover(old(sb.ent))
    ensures |sb.refcnt| == old(|sb.refcnt|)
    ensures forall o: nat :: o < |sb.refcnt| ==> Free(sb, o) == old(Free(sb, o))
    ensures old(FixedStops(sb)) ==> forall e, x, s :: e in sb.ent && e !in old(sb.ent) && Points(e, x, s) ==>
      Ends(sb.h, old(RulesOf(sb)), OptionsOf(sb, move, copy), old(sb.suspects), x, (e.suspect, s))
    ensures old(FixedStops(sb)) ==> forall e :: e in sb.ent && e !in old(sb.ent) ==>
      Exhausted(sb.h, old(RulesOf(sb)), OptionsOf(sb, move, copy), e)
    ensures !move && !copy && old(FixedStops(sb)) ==>
      Positions(sb.ent) == Fates(sb.h, old(RulesOf(sb)), old(sb.suspects), 0) + Positions(old(sb.ent))
  {
    hide TotalCover, TotalWeight, TotalNaming, Naming, Sum, Good, CountOf, Size, Weight, Suspects, Free, Fates,
      Positions,
      LeftBy, FixedStops, MarkBoundary, StopsKept, Ends, InStep, Points, Ready, Pending, Queued, Exhausted;
    ghost var start, op := sb.suspects, OptionsOf(sb, move, copy);
    ghost var fixed, marked, added := FixedStops(sb), sb.uninteresting, [];
    ReadyShape(sb, None);
    ghost var live := LiveCommits(sb);
    if fixed { InStepStart(sb, op, live); }
    var commit := PrioQueueGet(sb);
    while commit.Some?
      invariant Ready(sb, commit) && sb.Shape() && |sb.suspects| == |start|
      invariant commit.None? ==> sb.queue == []
      invariant TotalCover(sb.suspects) + Cover(sb.ent) == TotalCover(start) + Cover(old(sb.ent))
      invariant |sb.refcnt| == old(|sb.refcnt|)
      invariant forall o: nat :: o < |sb.refcnt| ==> Free(sb, o) == old(Free(sb, o))
      invariant sb.ent == added + old(sb.ent)
      invariant fixed ==> InStep(sb, start, op, marked, live, sb.uninteresting, sb.suspects, added)
      decreases TotalWeight(sb.h, sb.suspects), |sb.queue| + (if commit.Some? then 1 else 0)
    {
      ReadyShape(sb, commit);
      var found := FindSuspect(sb, commit.value);
      if found.None? {
        Unsuspected(sb, commit.value);
        commit := PrioQueueGet(sb);
        ReadyShape(sb, commit);
        continue;
      }
      SuspectsAt(sb, commit, found.value);
      if fixed {
        StepOn(sb, start, op, marked, live, added, found.value);
      }
      added := LeftBy(sb, op, found.value)[found.value] + added;
      Round(sb, commit.value, found.value, move, copy);
      ReadyShape(sb, commit);
    }
    ReadyShape(sb, None);
    AllEmpty(sb.suspects);
    if fixed { InStepEnds(sb, start, op, marked, live, added, old(sb.ent)); }
  }

  lemma ReadyShape(sb: Scoreboard, current: Option<nat>)
    requires Ready(sb, current)
    ensures sb.Shape() && (current.Some? ==> current.value < |sb.h.parents|)
    ensures current.None? && sb.queue == [] ==> forall o :: 0 <= o < |sb.suspects| ==> sb.suspects[o] == []
  {
  }

  lemma Unsuspected(sb: Scoreboard, commit: nat)
    requires Ready(sb, Some(commit)) && !Pending(sb.h, sb.suspects, commit)
    ensures Ready(sb, None)
  {
  }

  /** How the lists stand to the lists at the start: nothing became a stop, and every line is on one of its ways. */
  ghost predicate InStep(sb: Scoreboard, start: seq<seq<Entry>>, op: Options, marked: set<nat>, live: set<nat>,
                         now: set<nat>, sus: seq<seq<Entry>>, added: seq<Entry>)
    requires sb.h.Valid() && |start| == |sus| == |sb.h.commit|
  {
    var r := RulesFor(sb, marked);
    && StopsKept(sb, marked, now, live, sus) && OnTrail(sb.h, r, op, start, sus, added)
    && AllExhausted(sb.h, r, op, added)
    && (!op.move && !op.copy ==> Fates(sb.h, r, sus, 0) + Positions(added) == Fates(sb.h, r, start, 0))
  }

  lemma InStepStart(sb: Scoreboard, op: Options, live: set<nat>)
    requires sb.h.Valid() && |sb.suspects| == |sb.h.commit|
    requires StopsKept(sb, sb.uninteresting, sb.uninteresting, live, sb.suspects)
    ensures InStep(sb, sb.suspects, op, sb.uninteresting, live, sb.uninteresting, sb.suspects, [])
  {
    hide Fates, StopsKept, OnTrail;
    TrailStart(sb.h, RulesFor(sb, sb.uninteresting), op, sb.suspects);
    NothingAdded(Fates(sb.h, RulesFor(sb, sb.uninteresting), sb.suspects, 0));
  }

  lemma NothingAdded(a: multiset<Verdict>)
    ensures a + Positions([]) == a
  {
  }

  /** A round keeps the lists in step. */
  lemma StepOn(sb: Scoreboard, start: seq<seq<Entry>>, op: Options, marked: set<nat>, live: set<nat>,
               added: seq<Entry>, suspect: nat)
    requires sb.Shape() && suspect < |sb.suspects| && Suspects(sb.h, sb.suspects[suspect], suspect)
    requires sb.suspects[suspect] != [] && op.noWhole == sb.no_whole_file_rename && |start| == |sb.h.commit|
    requires InStep(sb, start, op, marked, live, sb.uninteresting, sb.suspects, added)
    ensures var left := LeftBy(sb, op, suspect);
      InStep(sb, start, op, marked, live, MarkBoundary(sb, sb.uninteresting, suspect), left[suspect := []],
             left[suspect] + added)
  {
    hide Fates, Positions, StopsKept, OnTrail, LeftBy, MarkBoundary, Suspects, Exhausted;
    ExhaustedOn(sb, marked, live, suspect, op, added);
    StopsOn(sb, marked, live, suspect, op);
    TrailOn(sb, marked, live, suspect, op, start, added);
    FatesOn(sb, marked, live, suspect, op, added);
  }

  lemma InStepEnds(sb: Scoreboard, start: seq<seq<Entry>>, op: Options, marked: set<nat>, live: set<nat>,
                   added: seq<Entry>, before: seq<Entry>)
    requires sb.h.Valid() && |start| == |sb.suspects| == |sb.h.commit|
    requires InStep(sb, start, op, marked, live, sb.uninteresting, sb.suspects, added)
    requires forall o :: 0 <= o < |sb.suspects| ==> sb.suspects[o] == []
    ensures forall e, x, s :: e in added + before && e !in before && Points(e, x, s) ==>
      Ends(sb.h, RulesFor(sb, marked), op, start, x, (e.suspect, s))
    ensures forall e :: e in added + before && e !in before ==> Exhausted(sb.h, RulesFor(sb, marked), op, e)
    ensures !op.move && !op.copy ==>
      Positions(added + before) == Fates(sb.h, RulesFor(sb, marked), start, 0) + Positions(before)
  {
    hide Fates, Positions, StopsKept, OnTrail, Ends, Points, Exhausted;
    NoFates(sb.h, RulesFor(sb, marked), sb.suspects, 0);
    TrailsEnd(sb.h, RulesFor(sb, marked), op, start, sb.suspects, added);
    PositionsConcat(added, before);
    PlusNothing(Positions(added));
  }

  lemma PlusNothing<T>(a: multiset<T>)
    ensures a + multiset{} == a && multiset{} + a == a
  {
  }

  lemma TrailsEnd(h: History, r: Rules, op: Options, start: seq<seq<Entry>>, sus: seq<seq<Entry>>, ent: seq<Entry>)
    requires h.Valid() && |start| == |h.commit| && OnTrail(h, r, op, start, sus, ent)
    ensures forall e, x, s :: e in ent && Points(e, x, s) ==> Ends(h, r, op, start, x, (e.suspect, s))
  {
    hide Ends;
  }

  lemma SuspectsAt(sb: Scoreboard, commit: Option<nat>, o: nat)
    requires Ready(sb, commit) && o < |sb.suspects|
    ensures Suspects(sb.h, sb.suspects[o], o)
  {
    hide Suspects;
  }

  /** Where a run stops: at what is uninteresting from the start, and at what is too old. */
  ghost function RulesOf(sb: Scoreboard): Rules
    reads sb`uninteresting
  {
    RulesFor(sb, sb.uninteresting)
  }

  ghost function RulesFor(sb: Scoreboard, start: set<nat>): Rules {
    Rules(sb.no_whole_file_rename, (c: nat) => c in start || sb.too_old(c))
  }

  /** The run goes no further than this commit. */
  ghost predicate Last(h: History, r: Rules, c: nat)
  {
    r.stop(c) || (c < |h.parents| && h.parents[c] == [])
  }

  /** live holds the parents of its commits that are not the last. */
  ghost predicate Closed(h: History, r: Rules, live: set<nat>)
  {
    forall c, p :: c in live && c < |h.parents| && !Last(h, r, c) && p in h.parents[c] ==> p in live
  }

  /** Of the live commits, what is behind a last one is a last one itself. */
  ghost predicate LastOnes(sb: Scoreboard, r: Rules, live: set<nat>)
  {
    forall c, a :: c in live && Last(sb.h, r, c) && sb.h.parses(c) && a in sb.ancestors(c) && a in live ==>
      Last(sb.h, r, a)
  }

  /** All suspects are of commits in live. */
  ghost predicate SuspectsIn(h: History, sus: seq<seq<Entry>>, live: set<nat>)
    requires |sus| <= |h.commit|
  {
    forall o :: 0 <= o < |sus| && sus[o] != [] ==> h.commit[o] in live
  }

  /** Of the commits that a run may come to, none becomes a stop on the way. */
  ghost predicate FixedStops(sb: Scoreboard)
    reads sb`uninteresting, sb`suspects
  {
    && |sb.suspects| <= |sb.h.commit|
    && exists live :: SuspectsIn(sb.h, sb.suspects, live) && FixedOn(sb, RulesOf(sb), live)
  }

  ghost predicate FixedOn(sb: Scoreboard, r: Rules, live: set<nat>)
  {
    Closed(sb.h, r, live) && LastOnes(sb, r, live)
  }

  /** The same for a run that starts at commit c. */
  ghost predicate FixedBehind(sb: Scoreboard, c: nat)
    reads sb`uninteresting
  {
    exists live: set<nat> :: c in live && FixedOn(sb, RulesOf(sb), live)
  }

  /** Of the commits a run comes to, only last ones are marked uninteresting on the way. */
  ghost predicate StopsKept(sb: Scoreboard, start: set<nat>, now: set<nat>, live: set<nat>, sus: seq<seq<Entry>>)
    requires |sus| <= |sb.h.commit|
  {
    && start <= now && SuspectsIn(sb.h, sus, live) && FixedOn(sb, RulesFor(sb, start), live)
    && forall c :: c in now && c in live ==> Last(sb.h, RulesFor(sb, start), c)
  }

  /** The commits that a run may come to, if there is such a set for which the stops are fixed. */
  lemma LiveCommits(sb: Scoreboard) returns (live: set<nat>)
    requires |sb.suspects| == |sb.h.commit|
    ensures FixedStops(sb) ==> StopsKept(sb, sb.uninteresting, sb.uninteresting, live, sb.suspects)
  {
    live := {};
    if FixedStops(sb) {
      live :| SuspectsIn(sb.h, sb.suspects, live) && FixedOn(sb, RulesOf(sb), live);
    }
  }

  /** What a round leaves in the lists, before its origin's own is taken. */
  ghost function LeftBy(sb: Scoreboard, op: Options, suspect: nat): (left: seq<seq<Entry>>)
    requires sb.Shape() && suspect < |sb.suspects| && Suspects(sb.h, sb.suspects[suspect], suspect)
    ensures |left| == |sb.suspects|
    reads sb
  {
    if Boundary(sb, suspect) then sb.suspects else AfterBlame(sb.h, op, sb.suspects, suspect)
  }

  /** One round keeps the stops. */
  lemma StopsOn(sb: Scoreboard, start: set<nat>, live: set<nat>, suspect: nat, op: Options)
    requires sb.Shape() && suspect < |sb.suspects| && Suspects(sb.h, sb.suspects[suspect], suspect)
    requires sb.suspects[suspect] != [] && StopsKept(sb, start, sb.uninteresting, live, sb.suspects)
    ensures var left := LeftBy(sb, op, suspect);
      StopsKept(sb, start, MarkBoundary(sb, sb.uninteresting, suspect), live, left[suspect := []])
  {
    hide Suspects, AfterBlame, Good;
    var left := LeftBy(sb, op, suspect);
    MarksKept(sb, start, live, suspect);
    forall o: nat | o < |left| && o != suspect && left[o] != [] ensures sb.h.commit[o] in live {
      if sb.suspects[o] == [] {
        FilledAtParents(sb.h, op, sb.suspects, suspect, o);
        assert !Last(sb.h, RulesFor(sb, start), sb.h.commit[suspect]);
      }
    }
  }

  lemma MarksKept(sb: Scoreboard, start: set<nat>, live: set<nat>, suspect: nat)
    requires sb.Shape() && suspect < |sb.suspects| && sb.suspects[suspect] != []
    requires StopsKept(sb, start, sb.uninteresting, live, sb.suspects)
    ensures var now := MarkBoundary(sb, sb.uninteresting, suspect);
      start <= now && forall c :: c in now && c in live ==> Last(sb.h, RulesFor(sb, start), c)
  {
    var c := sb.h.commit[suspect];
    assert c in live && c < |sb.h.parents|;
    if c in sb.uninteresting || sb.too_old(c) { assert Last(sb.h, RulesFor(sb, start), c); }
  }

  /** A round for a last commit passes nothing on; there is no difference between a stop and a root. */
  lemma LeftByRules(sb: Scoreboard, start: set<nat>, live: set<nat>, suspect: nat, op: Options)
    requires sb.Shape() && suspect < |sb.suspects| && Suspects(sb.h, sb.suspects[suspect], suspect)
    requires sb.suspects[suspect] != [] && StopsKept(sb, start, sb.uninteresting, live, sb.suspects)
    ensures LeftBy(sb, op, suspect) ==
      if RulesFor(sb, start).stop(sb.h.commit[suspect]) || sb.h.parents[sb.h.commit[suspect]] == []
      then sb.suspects else AfterBlame(sb.h, op, sb.suspects, suspect)
  {
    hide Suspects, SearchAll, Distributed, PlanOf;
    assert sb.h.commit[suspect] in live;
  }

  /** One round keeps all lines on their ways. */
  lemma TrailOn(sb: Scoreboard, start: set<nat>, live: set<nat>, suspect: nat, op: Options, lists: seq<seq<Entry>>,
                ent: seq<Entry>)
    requires sb.Shape() && suspect < |sb.suspects| && Suspects(sb.h, sb.suspects[suspect], suspect)
    requires sb.suspects[suspect] != [] && StopsKept(sb, start, sb.uninteresting, live, sb.suspects)
    requires op.noWhole == sb.no_whole_file_rename && |lists| == |sb.h.commit|
    requires OnTrail(sb.h, RulesFor(sb, start), op, lists, sb.suspects, ent)
    ensures var left := LeftBy(sb, op, suspect);
      OnTrail(sb.h, RulesFor(sb, start), op, lists, left[suspect := []], left[suspect] + ent)
  {
    hide Suspects, AfterBlame, OnTrail, StopsKept, LeftBy;
    LeftByRules(sb, start, live, suspect, op);
    TrailRound(sb.h, RulesFor(sb, start), op, lists, sb.suspects, ent, suspect);
  }

  /** What a round makes final is exhausted. */
  lemma ExhaustedOn(sb: Scoreboard, start: set<nat>, live: set<nat>, suspect: nat, op: Options, ent: seq<Entry>)
    requires sb.Shape() && suspect < |sb.suspects| && Suspects(sb.h, sb.suspects[suspect], suspect)
    requires sb.suspects[suspect] != [] && StopsKept(sb, start, sb.uninteresting, live, sb.suspects)
    requires op.noWhole == sb.no_whole_file_rename && AllExhausted(sb.h, RulesFor(sb, start), op, ent)
    ensures AllExhausted(sb.h, RulesFor(sb, start), op, LeftBy(sb, op, suspect)[suspect] + ent)
  {
    hide Suspects, AfterBlame, StopsKept, LeftBy, Exhausted;
    LeftByRules(sb, start, live, suspect, op);
    LeftExhausted(sb.h, RulesFor(sb, start), op, sb.suspects, suspect);
  }

  /** One round without -M and -C keeps the fate of every line. */
  lemma FatesOn(sb: Scoreboard, start: set<nat>, live: set<nat>, suspect: nat, op: Options, ent: seq<Entry>)
    requires sb.Shape() && suspect < |sb.suspects| && Suspects(sb.h, sb.suspects[suspect], suspect)
    requires sb.suspects[suspect] != [] && StopsKept(sb, start, sb.uninteresting, live, sb.suspects)
    requires op.noWhole == sb.no_whole_file_rename
    ensures var left := LeftBy(sb, op, suspect);
      !op.move && !op.copy ==>
        Fates(sb.h, RulesFor(sb, start), left[suspect := []], 0) + Positions(left[suspect] + ent)
        == Fates(sb.h, RulesFor(sb, start), sb.suspects, 0) + Positions(ent)
  {
    hide Fates, Positions, Suspects, AfterBlame, AfterPass, StopsKept, LeftBy;
    if !op.move && !op.copy {
      LeftByRules(sb, start, live, suspect, op);
      NoSearch(sb.h, op, sb.suspects, suspect);
      RoundFate(sb.h, RulesFor(sb, start), sb.suspects, ent, suspect);
    }
  }

  lemma {:induction false} NoFates(h: History, r: Rules, sus: seq<seq<Entry>>, k: nat)
    requires h.Valid() && k <= |sus| <= |h.commit|
    ensures (forall o :: 0 <= o < |sus| ==> sus[o] == []) ==> Fates(h, r, sus, k) == multiset{}
    decreases |sus| - k
  {
    if k < |sus| { NoFates(h, r, sus, k + 1); }
  }

  lemma ReadyWorking(sb: Scoreboard, suspect: nat)
    requires suspect < |sb.suspects| && |sb.suspects| == |sb.h.commit| && Ready(sb, Some(sb.h.commit[suspect]))
    ensures Working(sb, suspect) && Sorted(sb.suspects[suspect]) && Mine(sb.h, sb.suspects[suspect], suspect)
    ensures AllGood(sb.h, sb.ent) && forall e :: e in sb.ent ==> e.suspect < |sb.guilty| && sb.guilty[e.suspect]
  {
  }

  /** The run does not look behind the commit of this origin. */
  ghost predicate Boundary(sb: Scoreboard, suspect: nat)
    requires suspect < |sb.h.commit|
    reads sb`uninteresting
  {
    sb.h.commit[suspect] in sb.uninteresting || sb.too_old(sb.h.commit[suspect])
  }

  /** The commits marked uninteresting after the round of an origin. */
  ghost function MarkBoundary(sb: Scoreboard, was: set<nat>, suspect: nat): set<nat>
    requires suspect < |sb.h.commit| && sb.h.commit[suspect] < |sb.h.parents|
  {
    var c := sb.h.commit[suspect];
    was
    + (if c in was || sb.too_old(c) then {c} + (if sb.h.parses(c) then sb.ancestors(c) else {}) else {})
    + (if sb.h.parents[c] == [] && !sb.show_root then {c} else {})
  }

  lemma SuspectsOf(sb: Scoreboard, suspect: nat)
    requires Working(sb, suspect) && Sorted(sb.suspects[suspect])
    ensures Suspects(sb.h, sb.suspects[suspect], suspect)
  {
  }

  /** The suspect either passes its blame on, or its commit is a boundary. */
  method BreakDown(sb: Scoreboard, suspect: nat, move: bool, copy: bool)
    requires Working(sb, suspect) && Sorted(sb.suspects[suspect])
    modifies sb`suspects, sb`queue, sb`refcnt, sb`previous, sb`num_commits, sb`uninteresting
    ensures Working(sb, suspect) && TotalCover(sb.suspects) == TotalCover(old(sb.suspects))
    ensures TotalWeight(sb.h, sb.suspects) + Size(old(sb.suspects)[suspect])
      <= TotalWeight(sb.h, old(sb.suspects)) + Size(sb.suspects[suspect])
    ensures old(Boundary(sb, suspect)) ==> sb.suspects == old(sb.suspects)
    ensures Suspects(sb.h, old(sb.suspects)[suspect], suspect)
    ensures !old(Boundary(sb, suspect)) ==>
      sb.suspects == AfterBlame(sb.h, OptionsOf(sb, move, copy), old(sb.suspects), suspect)
    ensures sb.previous == if old(Boundary(sb, suspect)) then old(sb.previous)
                           else PreviousAfter(sb.h, sb.no_whole_file_rename, old(sb.previous), suspect)
    ensures sb.uninteresting == MarkBoundary(sb, old(sb.uninteresting), suspect)
    ensures var c := sb.h.commit[suspect];
      forall x :: x in sb.uninteresting <==>
        || x in old(sb.uninteresting)
        || (x == c && (sb.too_old(c) || (sb.h.parents[c] == [] && !sb.show_root)))
        || ((c in old(sb.uninteresting) || sb.too_old(c)) && sb.h.parses(c) && x in sb.ancestors(c))
    ensures |sb.refcnt| == old(|sb.refcnt|)
    ensures forall o: nat :: o < |sb.refcnt| ==> Free(sb, o) == old(Free(sb, o))
  {
    hide TotalCover, TotalWeight, TotalNaming, Naming, Sum, Good, CountOf, Size, Weight, Sorted, Healthy, Queued,
      AfterBlame, PreviousAfter, Suspects;
    SuspectsOf(sb, suspect);
    var commit := sb.h.commit[suspect];
    if commit !in sb.uninteresting && !sb.too_old(commit) {
      PassBlame(sb, suspect, move, copy);
    } else {
      sb.uninteresting := sb.uninteresting + {commit};
      if sb.h.parses(commit) { sb.uninteresting := sb.uninteresting + sb.ancestors(commit); }
    }
    if sb.h.parents[commit] == [] && !sb.show_root {
      sb.uninteresting := sb.uninteresting + {commit};
    }
  }

  /** One round of assign_blame, for one suspect. */
  method Round(sb: Scoreboard, commit: nat, suspect: nat, move: bool, copy: bool)
    requires Ready(sb, Some(commit)) && suspect < |sb.suspects| && sb.h.commit[suspect] == commit
    requires sb.suspects[suspect] != []
    modifies sb`suspects, sb`queue, sb`refcnt, sb`previous, sb`num_commits, sb`ent, sb`guilty, sb`uninteresting
    ensures Ready(sb, Some(commit))
    ensures TotalCover(sb.suspects) + Cover(sb.ent) == TotalCover(old(sb.suspects)) + Cover(old(sb.ent))
    ensures TotalWeight(sb.h, sb.suspects) < TotalWeight(sb.h, old(sb.suspects))
    ensures sb.uninteresting == MarkBoundary(sb, old(sb.uninteresting), suspect)
    ensures Suspects(sb.h, old(sb.suspects)[suspect], suspect)
    ensures var left := old(LeftBy(sb, OptionsOf(sb, move, copy), suspect));
      sb.suspects == left[suspect := []] && sb.ent == left[suspect] + old(sb.ent)
    ensures |sb.refcnt| == old(|sb.refcnt|)
    ensures forall o: nat :: o < |sb.refcnt| ==> Free(sb, o) == old(Free(sb, o))
  {
    hide Suspects, TotalCover, TotalWeight, TotalNaming, Naming, Cover, CountOf, Size, Sorted, Healthy, Queued, Mine,
      AllGood, AfterBlame, MarkBoundary, Boundary;
    ReadyWorking(sb, suspect);
    NonEmptySize(sb.h, sb.suspects[suspect], suspect);
    sb.IncRef(suspect);
    assert forall o: nat :: o < |sb.refcnt| ==> Free(sb, o) == old(Free(sb, o)) + (if o == suspect then 1 else 0);
    BreakDown(sb, suspect, move, copy);
    TakeResponsibility(sb, suspect);
    assert forall o: nat :: o < |sb.refcnt| ==> Free(sb, o) == old(Free(sb, o)) + (if o == suspect then 1 else 0);
    sb.DecRef(suspect);
  }

  lemma NonEmptySize(h: History, es: seq<Entry>, o: nat)
    requires es != [] && Mine(h, es, o)
    ensures 1 <= Size(es)
  {
    assert Good(h, es[0]);
  }

  lemma {:induction false} AllEmpty(sus: seq<seq<Entry>>)
    ensures (forall o :: 0 <= o < |sus| ==> sus[o] == []) ==> TotalCover(sus) == multiset{}
  {
    if sus != [] { AllEmpty(sus[1..]); }
  }
}
