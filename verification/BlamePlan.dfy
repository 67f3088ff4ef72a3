/**
 Which versions of the file pass_blame diffs with (git-2.15.0/blame.c:1407-1464), said of the list it ends with
 and not of the search: for every version listed, the pass that found it; and for every pass and parent that gave
 nothing, why.
 */
module BlamePlan {
  import opened BlameEntries
  import opened BlameHistory
  import opened BlameMeaning

  /** What a pass finds at the parent in place k, if that parent can be read. */
  ghost function VersionAt(h: History, o: nat, pass: nat, k: nat): Option<nat>
    requires h.Valid() && o < |h.commit| && k < |h.parents[h.commit[o]]|
  {
    var p := h.parents[h.commit[o]][k];
    if h.parses(p) then h.find(pass, p, o) else None
  }

  /** The same contents were listed for an earlier parent by then: in this pass or in one before. */
  ghost predicate Listed(h: History, sg: seq<Option<nat>>, found: seq<nat>, pass: nat, k: nat, p: nat)
    requires |found| == |sg| && k <= |sg| && p < |h.file|
  {
    exists j :: 0 <= j < k && sg[j].Some? && found[j] <= pass
      && sg[j].value < |h.file| && h.file[sg[j].value] == h.file[p]
  }

  /** The pass adds nothing at this parent: there is no version, or it is another file that is listed already. */
  ghost predicate PassedOver(h: History, o: nat, sg: seq<Option<nat>>, found: seq<nat>, pass: nat, k: nat)
    requires h.Valid() && o < |h.commit| && |found| == |sg| == |h.parents[h.commit[o]]| && k < |sg|
  {
    var p := VersionAt(h, o, pass, k);
    p.None? || (h.file[p.value] != h.file[o] && Listed(h, sg, found, pass, k, p.value))
  }

  /**
   The place for parent k when the search comes to parent i of a pass: the first pass that did not pass parent k
   over has filled it.
   */
  ghost predicate RightlyListed(h: History, o: nat, sg: seq<Option<nat>>, found: seq<nat>, pass: nat, i: nat, k: nat)
    requires h.Valid() && o < |h.commit| && |found| == |sg| == |h.parents[h.commit[o]]| && k < |sg|
  {
    var end := if k < i then pass + 1 else pass;
    match sg[k]
    case None => forall q :: 0 <= q < end ==> PassedOver(h, o, sg, found, q, k)
    case Some(p) =>
      && found[k] < end
      && VersionAt(h, o, found[k], k) == Some(p)
      && h.file[p] != h.file[o]
      && !Listed(h, sg, found, found[k], k, p)
      && forall q :: 0 <= q < found[k] ==> PassedOver(h, o, sg, found, q, k)
  }

  /** The list is what the search has when it comes to parent i of a pass; found[k] is the pass that filled place k. */
  ghost predicate SearchedTo(h: History, o: nat, sg: seq<Option<nat>>, found: seq<nat>, pass: nat, i: nat)
    requires h.Valid() && o < |h.commit|
  {
    && |found| == |sg| == |h.parents[h.commit[o]]|
    && forall k :: 0 <= k < |sg| ==> RightlyListed(h, o, sg, found, pass, i, k)
  }

  /** A search without an identical file: two passes, or one if whole-file renames are not looked for. */
  ghost predicate ListsOnly(h: History, noWhole: bool, o: nat, sg: seq<Option<nat>>)
    requires h.Valid() && o < |h.commit|
  {
    exists found: seq<nat>, passes: nat :: SearchedTo(h, o, sg, found, passes, 0) && passes == if noWhole then 1 else 2
  }

  /** The search comes to parent i of a pass that is to be made, and the version found there is identical. */
  ghost predicate MeetsAt(h: History, noWhole: bool, o: nat, p: nat, sg: seq<Option<nat>>, found: seq<nat>, pass: nat,
                          i: nat)
    requires h.Valid() && o < |h.commit|
  {
    && pass < (if noWhole then 1 else 2) && i < |h.parents[h.commit[o]]|
    && SearchedTo(h, o, sg, found, pass, i) && sg[i].None?
    && VersionAt(h, o, pass, i) == Some(p) && p < |h.file| && h.file[p] == h.file[o]
  }

  ghost predicate MeetsIdentical(h: History, noWhole: bool, o: nat, p: nat)
    requires h.Valid() && o < |h.commit|
  {
    exists sg, found, pass, i :: MeetsAt(h, noWhole, o, p, sg, found, pass, i)
  }

  /**
   The plan: everything goes to an identical file if and only if the search meets one, and then to that; and
   otherwise the versions to diff with are exactly those that the passes fill the list with.
   */
  lemma PlanIs(h: History, noWhole: bool, o: nat)
    requires h.Valid() && o < |h.commit|
    ensures forall p: nat :: PlanOf(h, noWhole, o) == Whole(p) <==> MeetsIdentical(h, noWhole, o, p)
    ensures forall sg :: PlanOf(h, noWhole, o) == Goats(sg) <==> ListsOnly(h, noWhole, o, sg)
  {
    hide *;
    forall p: nat | MeetsIdentical(h, noWhole, o, p) ensures PlanOf(h, noWhole, o) == Whole(p) {
      IdenticalPlan(h, noWhole, o, p);
    }
    forall sg | ListsOnly(h, noWhole, o, sg) ensures PlanOf(h, noWhole, o) == Goats(sg) {
      ListedPlan(h, noWhole, o, sg);
    }
    CommitKnown(h, o);
    var none: seq<Option<nat>> := seq(|h.parents[h.commit[o]]|, _ => None);
    var found: seq<nat> := seq(|none|, _ => 0);
    NothingYet(h, o, none, found);
    PlanStarts(h, noWhole, o, none);
    SearchPlan(h, noWhole, o, none, found, 0, 0);
  }

  lemma PlanStarts(h: History, noWhole: bool, o: nat, none: seq<Option<nat>>)
    requires h.Valid() && o < |h.commit| && |none| == |h.parents[h.commit[o]]|
    requires forall k :: 0 <= k < |none| ==> none[k].None?
    ensures Scapegoats(h, o, none)
    ensures PlanOf(h, noWhole, o) == PlanFrom(h, o, if noWhole then 1 else 2, 0, 0, none)
  {
    hide PlanFrom;
    var empty: seq<Option<nat>> := seq(|h.parents[h.commit[o]]|, _ => None);
    assert none == empty && PlanOf(h, noWhole, o) == PlanFrom(h, o, if noWhole then 1 else 2, 0, 0, empty);
  }

  lemma CommitKnown(h: History, o: nat)
    requires h.Valid() && o < |h.commit|
    ensures h.commit[o] < |h.parents|
  {
  }

  lemma NothingYet(h: History, o: nat, none: seq<Option<nat>>, found: seq<nat>)
    requires h.Valid() && o < |h.commit| && |found| == |none| == |h.parents[h.commit[o]]|
    requires forall k :: 0 <= k < |none| ==> none[k].None?
    ensures SearchedTo(h, o, none, found, 0, 0) && Scapegoats(h, o, none)
  {
  }

  // ---------------------------------------------------------------------------------------------
  // From the search to the list

  /** Parent i gives nothing in this pass. */
  lemma StepOver(h: History, o: nat, sg: seq<Option<nat>>, found: seq<nat>, pass: nat, i: nat)
    requires h.Valid() && o < |h.commit| && SearchedTo(h, o, sg, found, pass, i) && i < |sg|
    requires sg[i].Some? || PassedOver(h, o, sg, found, pass, i)
    ensures SearchedTo(h, o, sg, found, pass, i + 1)
  {
    hide PassedOver, Listed, VersionAt;
    var next := i + 1;
    forall k | 0 <= k < |sg| ensures RightlyListed(h, o, sg, found, pass, next, k)
    {
      assert RightlyListed(h, o, sg, found, pass, i, k);
    }
  }

  /** Parent i gives a version that is not listed yet. */
  lemma StepInto(h: History, o: nat, sg: seq<Option<nat>>, found: seq<nat>, pass: nat, i: nat, p: nat)
    requires h.Valid() && o < |h.commit| && SearchedTo(h, o, sg, found, pass, i) && i < |sg| && sg[i].None?
    requires VersionAt(h, o, pass, i) == Some(p) && p < |h.file| && h.file[p] != h.file[o]
    requires !Listed(h, sg, found, pass, i, p)
    ensures SearchedTo(h, o, sg[i := Some(p)], found[i := pass], pass, i + 1)
  {
    hide VersionAt;
    var sg', found', next := sg[i := Some(p)], found[i := pass], i + 1;
    forall k | 0 <= k < |sg| ensures RightlyListed(h, o, sg', found', pass, next, k)
    {
      var end := if k < i then pass + 1 else pass;
      assert RightlyListed(h, o, sg, found, pass, i, k);
      forall q: nat, v: nat | v < |h.file| && (q < end || k == i)
        ensures Listed(h, sg', found', q, k, v) == Listed(h, sg, found, q, k, v)
      {
        ListedSame(h, sg, found, i, p, pass, q, k, v);
      }
      PassedOverSame(h, o, sg, found, sg', found', end, k);
    }
  }

  lemma ListedSame(h: History, sg: seq<Option<nat>>, found: seq<nat>, i: nat, p: nat, pass: nat, q: nat, k: nat, v: nat)
    requires |found| == |sg| && k <= |sg| && i < |sg| && v < |h.file| && sg[i].None? && (k <= i || q < pass)
    ensures Listed(h, sg[i := Some(p)], found[i := pass], q, k, v) == Listed(h, sg, found, q, k, v)
  {
    var sg', found' := sg[i := Some(p)], found[i := pass];
    forall j | 0 <= j < k
      ensures (sg'[j].Some? && found'[j] <= q) == (sg[j].Some? && found[j] <= q)
      ensures sg'[j].Some? && found'[j] <= q ==> sg'[j] == sg[j]
    {
    }
  }

  lemma PassedOverSame(h: History, o: nat, sg: seq<Option<nat>>, found: seq<nat>, sg': seq<Option<nat>>,
                       found': seq<nat>, end: nat, k: nat)
    requires h.Valid() && o < |h.commit|
    requires |found| == |sg| == |found'| == |sg'| == |h.parents[h.commit[o]]| && k < |sg|
    requires forall q: nat, v: nat :: v < |h.file| && q < end ==>
      Listed(h, sg', found', q, k, v) == Listed(h, sg, found, q, k, v)
    ensures forall q: nat :: q < end ==> PassedOver(h, o, sg', found', q, k) == PassedOver(h, o, sg, found, q, k)
  {
    hide Listed;
  }

  /** What the step from parent i of a pass adds, in the words of the search. */
  lemma StepMeans(h: History, o: nat, passes: nat, sg: seq<Option<nat>>, found: seq<nat>, pass: nat, i: nat)
    requires h.Valid() && o < |h.commit| && SearchedTo(h, o, sg, found, pass, i) && i < |sg|
    requires Scapegoats(h, o, sg) && pass < passes
    ensures var plan := PlanFrom(h, o, passes, pass, i, sg);
      var skip := PlanFrom(h, o, passes, pass, i + 1, sg);
      var p := VersionAt(h, o, pass, i);
      if sg[i].Some? || p.None? then plan == skip
      else p.value < |h.file| && (if h.file[p.value] == h.file[o] then plan == Whole(p.value)
        else if Listed(h, sg, found, pass, i, p.value) then plan == skip
        else Scapegoats(h, o, sg[i := p]) && plan == PlanFrom(h, o, passes, pass, i + 1, sg[i := p]))
  {
    hide PlanFrom, RightlyListed, SameBlobBefore, Listed;
    PlanStep(h, o, passes, pass, i, sg);
    var p := VersionAt(h, o, pass, i);
    if sg[i].None? && p.Some? { BeforeIsListed(h, o, sg, found, pass, i, p.value); }
  }

  lemma BeforeIsListed(h: History, o: nat, sg: seq<Option<nat>>, found: seq<nat>, pass: nat, i: nat, p: nat)
    requires h.Valid() && o < |h.commit| && SearchedTo(h, o, sg, found, pass, i) && i <= |sg| && p < |h.file|
    ensures Listed(h, sg, found, pass, i, p) == SameBlobBefore(h, sg, i, p)
  {
    hide VersionAt, PassedOver;
    forall j | 0 <= j < i && sg[j].Some? ensures found[j] <= pass {
      assert RightlyListed(h, o, sg, found, pass, i, j);
    }
  }

  lemma {:induction false} SearchPlan(h: History, noWhole: bool, o: nat, sg: seq<Option<nat>>, found: seq<nat>,
                                      pass: nat, i: nat)
    requires h.Valid() && o < |h.commit| && SearchedTo(h, o, sg, found, pass, i) && i <= |sg|
    requires Scapegoats(h, o, sg) && (pass < (if noWhole then 1 else 2) || (i == 0 && pass == if noWhole then 1 else 2))
    ensures var plan := PlanFrom(h, o, if noWhole then 1 else 2, pass, i, sg);
      match plan case Whole(p) => MeetsIdentical(h, noWhole, o, p) case Goats(goats) => ListsOnly(h, noWhole, o, goats)
    decreases (if noWhole then 1 else 2) - pass, |sg| - i
  {
    hide PlanFrom, SearchedTo, Listed, VersionAt;
    var passes := if noWhole then 1 else 2;
    PlanEnds(h, o, passes, pass, i, sg);
    if pass < passes && i == |sg| {
      NextPass(h, o, sg, found, pass);
      SearchPlan(h, noWhole, o, sg, found, pass + 1, 0);
    } else if pass < passes {
      SearchedLength(h, o, sg, found, pass, i);
      StepMeans(h, o, passes, sg, found, pass, i);
      var p := VersionAt(h, o, pass, i);
      if sg[i].Some? || p.None? || (h.file[p.value] != h.file[o] && Listed(h, sg, found, pass, i, p.value)) {
        StepOver(h, o, sg, found, pass, i);
        SearchPlan(h, noWhole, o, sg, found, pass, i + 1);
      } else if h.file[p.value] == h.file[o] {
        assert MeetsAt(h, noWhole, o, p.value, sg, found, pass, i);
      } else {
        StepInto(h, o, sg, found, pass, i, p.value);
        SearchPlan(h, noWhole, o, sg[i := p], found[i := pass], pass, i + 1);
      }
    }
  }

  lemma SearchedLength(h: History, o: nat, sg: seq<Option<nat>>, found: seq<nat>, pass: nat, i: nat)
    requires h.Valid() && o < |h.commit| && SearchedTo(h, o, sg, found, pass, i)
    ensures |found| == |sg| == |h.parents[h.commit[o]]|
  {
  }

  /** After the last parent comes the first one of the next pass. */
  lemma NextPass(h: History, o: nat, sg: seq<Option<nat>>, found: seq<nat>, pass: nat)
    requires h.Valid() && o < |h.commit| && SearchedTo(h, o, sg, found, pass, |sg|)
    ensures SearchedTo(h, o, sg, found, pass + 1, 0)
  {
    hide PassedOver, Listed, VersionAt;
    var next := pass + 1;
    forall k | 0 <= k < |sg| ensures RightlyListed(h, o, sg, found, next, 0, k) {
      assert RightlyListed(h, o, sg, found, pass, |sg|, k);
    }
  }

  // ---------------------------------------------------------------------------------------------
  // From the list to the search

  /** What of a list was there when the search came to parent i of a pass. */
  ghost function Then(sg: seq<Option<nat>>, found: seq<nat>, pass: nat, i: nat): (r: seq<Option<nat>>)
    requires |found| == |sg|
    ensures |r| == |sg|
  {
    seq(|sg|, k requires 0 <= k < |sg| =>
      if sg[k].Some? && found[k] < (if k < i then pass + 1 else pass) then sg[k] else None)
  }

  lemma ThenSearched(h: History, o: nat, sg: seq<Option<nat>>, found: seq<nat>, end: nat, at: nat, pass: nat, i: nat)
    requires h.Valid() && o < |h.commit| && SearchedTo(h, o, sg, found, end, at) && i <= |sg|
    requires pass < end || (pass == end && i <= at)
    ensures SearchedTo(h, o, Then(sg, found, pass, i), found, pass, i)
  {
    hide VersionAt;
    var then' := Then(sg, found, pass, i);
    forall k | 0 <= k < |sg|
      ensures RightlyListed(h, o, then', found, pass, i, k)
    {
      var upto := if k < i then pass + 1 else pass;
      assert RightlyListed(h, o, sg, found, end, at, k);
      forall q: nat, v: nat | v < |h.file| && q < upto
        ensures Listed(h, then', found, q, k, v) == Listed(h, sg, found, q, k, v)
      {
        ThenListed(h, sg, found, pass, i, q, k, v);
      }
      PassedOverSame(h, o, sg, found, then', found, upto, k);
    }
  }

  lemma ThenListed(h: History, sg: seq<Option<nat>>, found: seq<nat>, pass: nat, i: nat, q: nat, k: nat, v: nat)
    requires |found| == |sg| && k <= |sg| && v < |h.file| && q < (if k < i then pass + 1 else pass)
    ensures Listed(h, Then(sg, found, pass, i), found, q, k, v) == Listed(h, sg, found, q, k, v)
  {
    var then' := Then(sg, found, pass, i);
    forall j | 0 <= j < k && sg[j].Some? && found[j] <= q ensures then'[j] == sg[j] {}
  }

  lemma ThenScapegoats(h: History, o: nat, sg: seq<Option<nat>>, found: seq<nat>, end: nat, at: nat, pass: nat, i: nat)
    requires h.Valid() && o < |h.commit| && SearchedTo(h, o, sg, found, end, at)
    ensures Scapegoats(h, o, Then(sg, found, pass, i)) && Scapegoats(h, o, sg)
  {
    hide PassedOver, Listed;
    var ps := h.parents[h.commit[o]];
    forall k | 0 <= k < |sg| && sg[k].Some?
      ensures sg[k].value < |h.commit| && h.commit[sg[k].value] == ps[k]
    {
      assert RightlyListed(h, o, sg, found, end, at, k);
      assert h.find(found[k], ps[k], o) == sg[k];
    }
  }

  /** From any earlier point on, the search gets to the list. */
  lemma {:induction false} GetsTo(h: History, o: nat, passes: nat, sg: seq<Option<nat>>, found: seq<nat>, end: nat,
                                  at: nat, pass: nat, i: nat)
    requires h.Valid() && o < |h.commit| && SearchedTo(h, o, sg, found, end, at) && at <= |sg| && i <= |sg|
    requires (end < passes || (end == passes && at == 0)) && (pass < end || (pass == end && i <= at))
    ensures Scapegoats(h, o, Then(sg, found, pass, i)) && Scapegoats(h, o, sg)
    ensures PlanFrom(h, o, passes, pass, i, Then(sg, found, pass, i)) == PlanFrom(h, o, passes, end, at, sg)
    decreases end - pass, |sg| - i
  {
    hide *;
    ThenScapegoats(h, o, sg, found, end, at, pass, i);
    if pass == end && i == at {
      ThenAll(h, o, sg, found, end, at);
    } else {
      SearchedLength(h, o, sg, found, end, at);
      if i == |sg| {
        ThenNext(sg, found, pass);
        ThenScapegoats(h, o, sg, found, end, at, pass + 1, 0);
        PlanEnds(h, o, passes, pass, 0, Then(sg, found, pass, i));
        GetsTo(h, o, passes, sg, found, end, at, pass + 1, 0);
      } else {
        ThenScapegoats(h, o, sg, found, end, at, pass, i + 1);
        ThenStep(h, o, passes, sg, found, end, at, pass, i);
        GetsTo(h, o, passes, sg, found, end, at, pass, i + 1);
      }
    }
  }

  lemma ThenAll(h: History, o: nat, sg: seq<Option<nat>>, found: seq<nat>, end: nat, at: nat)
    requires h.Valid() && o < |h.commit| && SearchedTo(h, o, sg, found, end, at)
    ensures Then(sg, found, end, at) == sg
  {
    hide PassedOver, Listed, VersionAt;
    forall k | 0 <= k < |sg| ensures Then(sg, found, end, at)[k] == sg[k] {
      assert RightlyListed(h, o, sg, found, end, at, k);
    }
  }

  lemma ThenNext(sg: seq<Option<nat>>, found: seq<nat>, pass: nat)
    requires |found| == |sg|
    ensures Then(sg, found, pass, |sg|) == Then(sg, found, pass + 1, 0)
  {
  }

  lemma ThenStep(h: History, o: nat, passes: nat, sg: seq<Option<nat>>, found: seq<nat>, end: nat, at: nat, pass: nat,
                 i: nat)
    requires h.Valid() && o < |h.commit| && SearchedTo(h, o, sg, found, end, at) && at <= |sg| && i < |sg|
    requires pass < passes && (pass < end || (pass == end && i < at))
    requires Scapegoats(h, o, Then(sg, found, pass, i)) && Scapegoats(h, o, Then(sg, found, pass, i + 1))
    ensures PlanFrom(h, o, passes, pass, i, Then(sg, found, pass, i))
      == PlanFrom(h, o, passes, pass, i + 1, Then(sg, found, pass, i + 1))
  {
    hide PlanFrom, SearchedTo, Listed, VersionAt, Scapegoats;
    SearchedLength(h, o, sg, found, end, at);
    var now := Then(sg, found, pass, i);
    ThenSearched(h, o, sg, found, end, at, pass, i);
    StepMeans(h, o, passes, now, found, pass, i);
    ThisPlace(h, o, sg, found, end, at, pass, i);
    assert sg[i].Some? && found[i] == pass ==> Then(sg, found, pass, i + 1) == now[i := sg[i]];
    assert !(sg[i].Some? && found[i] == pass) ==> Then(sg, found, pass, i + 1) == now;
  }

  /** What is said of parent i in this pass, in terms of the list so far. */
  lemma ThisPlace(h: History, o: nat, sg: seq<Option<nat>>, found: seq<nat>, end: nat, at: nat, pass: nat, i: nat)
    requires h.Valid() && o < |h.commit| && SearchedTo(h, o, sg, found, end, at) && at <= |sg| && i < |sg|
    requires pass < end || (pass == end && i < at)
    ensures |found| == |sg| == |h.parents[h.commit[o]]|
    ensures var now := Then(sg, found, pass, i);
      var p := VersionAt(h, o, pass, i);
      if sg[i].Some? && found[i] < pass then now[i].Some?
      else if sg[i].Some? && found[i] == pass then
        p == sg[i] && p.value < |h.file| && h.file[p.value] != h.file[o] && !Listed(h, now, found, pass, i, p.value)
      else p.None? || (p.value < |h.file| && h.file[p.value] != h.file[o] && Listed(h, now, found, pass, i, p.value))
  {
    hide Listed, Then;
    assert RightlyListed(h, o, sg, found, end, at, i);
    var p := VersionAt(h, o, pass, i);
    ThenAt(sg, found, pass, i);
    assert PassedOver(h, o, sg, found, pass, i) || (sg[i].Some? && found[i] <= pass);
    if p.Some? { StillListed(h, sg, found, pass, i, p.value); }
  }

  lemma ThenAt(sg: seq<Option<nat>>, found: seq<nat>, pass: nat, i: nat)
    requires |found| == |sg| && i < |sg|
    ensures Then(sg, found, pass, i)[i] == if sg[i].Some? && found[i] < pass then sg[i] else None
  {
  }

  /** Before parent i, all that was found up to this pass is there. */
  lemma StillListed(h: History, sg: seq<Option<nat>>, found: seq<nat>, pass: nat, i: nat, v: nat)
    requires |found| == |sg| && i < |sg| && v < |h.file|
    ensures Listed(h, Then(sg, found, pass, i), found, pass, i, v) == Listed(h, sg, found, pass, i, v)
  {
    var now := Then(sg, found, pass, i);
    forall j | 0 <= j < i && sg[j].Some? && found[j] <= pass ensures now[j] == sg[j] {}
  }

  lemma ThenNothing(sg: seq<Option<nat>>, found: seq<nat>)
    requires |found| == |sg|
    ensures forall k :: 0 <= k < |sg| ==> Then(sg, found, 0, 0)[k].None?
  {
  }

  lemma ListedPlan(h: History, noWhole: bool, o: nat, sg: seq<Option<nat>>)
    requires h.Valid() && o < |h.commit| && ListsOnly(h, noWhole, o, sg)
    ensures PlanOf(h, noWhole, o) == Goats(sg)
  {
    hide PlanFrom, SearchedTo, Then, PlanOf;
    var found: seq<nat>, passes: nat :| SearchedTo(h, o, sg, found, passes, 0) && passes == if noWhole then 1 else 2;
    SearchedLength(h, o, sg, found, passes, 0);
    GetsTo(h, o, passes, sg, found, passes, 0, 0, 0);
    ThenNothing(sg, found);
    PlanStarts(h, noWhole, o, Then(sg, found, 0, 0));
    PlanEnds(h, o, passes, passes, 0, sg);
  }

  lemma IdenticalPlan(h: History, noWhole: bool, o: nat, p: nat)
    requires h.Valid() && o < |h.commit| && MeetsIdentical(h, noWhole, o, p)
    ensures PlanOf(h, noWhole, o) == Whole(p)
  {
    hide PlanFrom, SearchedTo, Then, PlanOf, VersionAt, Listed;
    var passes: nat := if noWhole then 1 else 2;
    var sg, found, pass, i :| MeetsAt(h, noWhole, o, p, sg, found, pass, i);
    SearchedLength(h, o, sg, found, pass, i);
    GetsTo(h, o, passes, sg, found, pass, i, 0, 0);
    assert Scapegoats(h, o, sg);
    ThenNothing(sg, found);
    PlanStarts(h, noWhole, o, Then(sg, found, 0, 0));
    StepMeans(h, o, passes, sg, found, pass, i);
  }
}
