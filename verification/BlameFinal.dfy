/**
 A whole blame run, from the requested line ranges to the final entries, and blame_coalesce
 (git-2.15.0/blame.c, with the setup of git-2.15.0/builtin/blame.c).
 */
module BlameFinal {
  import opened BlameEntries
  import opened BlameHistory
  import opened BlameCut
  import opened BlameMove
  import opened BlameSearch
  import opened BlameQueue
  import opened BlameMeaning
  import opened BlamePass
  import opened BlameTrail
  import opened BlameThorough
  import opened BlameAssign

  datatype Range = Range(start: nat, end: nat)

  /** Non-empty ranges of final lines, in order and apart, as sort_and_merge_range_set leaves them. */
  ghost predicate ValidRanges(rs: seq<Range>, from: nat, n: nat)
  {
    rs == [] || (from <= rs[0].start < rs[0].end <= n && ValidRanges(rs[1..], rs[0].end, n))
  }

  ghost predicate InRanges(rs: seq<Range>, x: int) { exists r :: r in rs && r.start <= x < r.end }

  lemma {:induction false} RunCount(lno: int, s: int, n: nat, x: int)
    ensures Run(lno, s, n, FinalOf())[x] == if lno <= x < lno + n then 1 else 0
    decreases n
  {
    if n > 0 { RunCount(lno + 1, s + 1, n - 1, x); }
  }

  /** The entries the prepends build: one a range, every line pointing at itself. */
  ghost function StartList(rs: seq<Range>, o: nat): seq<Entry>
  {
    if rs == [] then [] else
    var n := if rs[0].start <= rs[0].end then rs[0].end - rs[0].start else 0;
    [Entry(rs[0].start, n, o, rs[0].start, 0)] + StartList(rs[1..], o)
  }

  lemma InRangesHead(rs: seq<Range>, x: int)
    requires rs != []
    ensures InRanges(rs, x) <==> (rs[0].start <= x < rs[0].end) || InRanges(rs[1..], x)
  {
    assert rs == [rs[0]] + rs[1..];
    assert rs[0] in rs;
    if InRanges(rs[1..], x) { var r :| r in rs[1..] && r.start <= x < r.end; assert r in rs; }
  }

  lemma {:induction false} StartListGood(h: History, rs: seq<Range>, from: nat, o: nat)
    requires o < |h.file| && h.file[o] == h.image && ValidRanges(rs, from, |h.image|)
    ensures Mine(h, StartList(rs, o), o) && Sorted(StartList(rs, o)) && AllFrom(StartList(rs, o), from)
    ensures forall x :: Cover(StartList(rs, o))[x] == if InRanges(rs, x) then 1 else 0
    ensures forall x :: InRanges(rs, x) ==> from <= x < |h.image|
  {
    if rs != [] {
      var r, rest := rs[0], rs[1..];
      var e := Entry(r.start, r.end - r.start, o, r.start, 0);
      StartListGood(h, rest, r.end, o);
      assert StartList(rs, o) == [e] + StartList(rest, o);
      assert StartList(rs, o)[1..] == StartList(rest, o);
      forall x ensures Cover(StartList(rs, o))[x] == if InRanges(rs, x) then 1 else 0 {
        RunCount(e.lno, e.s_lno, e.num_lines, x);
        assert rs == [r] + rest;
        InRangesHead(rs, x);
        assert Cover(StartList(rs, o)) == Run(e.lno, e.s_lno, e.num_lines, FinalOf()) + Cover(StartList(rest, o));
      }
    }
  }

  lemma {:induction false} RunFate(h: History, r: Rules, o: nat, lno: int, n: nat, v: Verdict)
    requires h.Valid() && o < |h.commit|
    ensures Run(lno, lno, n, FateLine(h, r, o))[v]
      == if lno <= v.0 < lno + n && v.1 == Blamed(h, r, o, v.0) then 1 else 0
    decreases n
  {
    hide Blamed;
    if n > 0 { RunFate(h, r, o, lno + 1, n - 1, v); }
  }

  /** Every requested line starts out with the fate of that line of the file. */
  lemma {:induction false} StartFates(h: History, r: Rules, rs: seq<Range>, from: nat, o: nat, v: Verdict)
    requires h.Valid() && o < |h.commit| && ValidRanges(rs, from, |h.image|) && |h.file[o]| == |h.image|
    ensures Sum(StartList(rs, o), FateLine(h, r, o))[v]
      == if InRanges(rs, v.0) && v.1 == Blamed(h, r, o, v.0) then 1 else 0
    ensures InRanges(rs, v.0) ==> from <= v.0
    decreases |rs|
  {
    hide Blamed, Run, FateLine;
    if rs != [] {
      StartFates(h, r, rs[1..], rs[0].end, o, v);
      RunFate(h, r, o, rs[0].start, rs[0].end - rs[0].start, v);
      InRangesHead(rs, v.0);
      assert StartList(rs, o)[1..] == StartList(rs[1..], o);
    }
  }

  /** Every requested line is blamed once, and on what following it alone leads to; no other line is blamed. */
  ghost predicate EachBlamed(h: History, r: Rules, ranges: seq<Range>, o: nat, verdicts: multiset<Verdict>)
    requires h.Valid() && o < |h.commit|
  {
    forall v: Verdict :: verdicts[v] == if InRanges(ranges, v.0) && v.1 == Blamed(h, r, o, v.0) then 1 else 0
  }

  lemma AllStartFates(h: History, r: Rules, rs: seq<Range>, o: nat)
    requires h.Valid() && o < |h.commit| && ValidRanges(rs, 0, |h.image|) && |h.file[o]| == |h.image|
    ensures EachBlamed(h, r, rs, o, Sum(StartList(rs, o), FateLine(h, r, o)))
  {
    hide Sum, Blamed, StartList, FateLine;
    forall v: Verdict
      ensures Sum(StartList(rs, o), FateLine(h, r, o))[v]
        == if InRanges(rs, v.0) && v.1 == Blamed(h, r, o, v.0) then 1 else 0
    {
      StartFates(h, r, rs, 0, o, v);
    }
  }

  /** With all other lists empty, the fates are those of one list. */
  lemma OneFate(h: History, r: Rules, sus: seq<seq<Entry>>, o: nat, es: seq<Entry>)
    requires h.Valid() && o < |sus| <= |h.commit| && forall p :: 0 <= p < |sus| ==> sus[p] == []
    ensures Fates(h, r, sus[o := es], 0) == Sum(es, FateLine(h, r, o))
  {
    hide Sum, FateLine, Fates;
    NoFates(h, r, sus, 0);
    FatesUpdate(h, r, sus, o, es, 0);
    SumNil(FateLine(h, r, o));
    NothingElse(Fates(h, r, sus[o := es], 0), Sum(es, FateLine(h, r, o)));
  }

  lemma NothingElse<T>(a: multiset<T>, b: multiset<T>)
    requires a + multiset{} == multiset{} + b
    ensures a == b
  {
    assert a == a + multiset{} && b == multiset{} + b;
  }

  /** blame_entry_prepend */
  method BlameEntryPrepend(sb: Scoreboard, head: seq<Entry>, start: nat, end: nat, o: nat) returns (list: seq<Entry>)
    requires start <= end && o < |sb.refcnt|
    modifies sb`refcnt
    ensures list == [Entry(start, end - start, o, start, 0)] + head
    ensures sb.refcnt == old(sb.refcnt)[o := old(sb.refcnt)[o] + 1]
  {
    list := [Entry(start, end - start, o, start, 0)] + head;
    sb.IncRef(o);
  }

  lemma {:induction false} RangesAt(rs: seq<Range>, from: nat, n: nat, i: nat)
    requires ValidRanges(rs, from, n) && i < |rs|
    ensures rs[i].start <= rs[i].end
  {
    if i > 0 { RangesAt(rs[1..], rs[0].end, n, i - 1); }
  }

  /** At the start every line of the list points at itself. */
  lemma {:induction false} StartPoints(rs: seq<Range>, from: nat, n: nat, o: nat, x: int, s: int)
    requires ValidRanges(rs, from, n) && (x, s) in Pairs(StartList(rs, o))
    ensures s == x && InRanges(rs, x)
  {
    InRangesHead(rs, x);
    var e, rest := StartList(rs, o)[0], StartList(rs, o)[1..];
    assert rest == StartList(rs[1..], o);
    RunPairs(e.lno, e.s_lno, e.num_lines, x, s);
    if (x, s) in Pairs(rest) { StartPoints(rs[1..], rs[0].end, n, o, x, s); }
  }

  /** Every line of the entries is requested, and at an end of one of its ways from its own place in the file. */
  ghost predicate EachAtEnd(h: History, r: Rules, op: Options, ranges: seq<Range>, o: nat, ent: seq<Entry>)
    requires h.Valid() && o < |h.commit|
  {
    forall e, x, s :: e in ent && Points(e, x, s) ==>
      InRanges(ranges, x) && CanEnd(h, r, op, x, (o, x), (e.suspect, s))
  }

  lemma EndsOfRanges(h: History, r: Rules, op: Options, ranges: seq<Range>, o: nat, start: seq<seq<Entry>>,
                     ent: seq<Entry>)
    requires h.Valid() && o < |h.commit| == |start| && ValidRanges(ranges, 0, |h.image|)
    requires start[o] == StartList(ranges, o) && forall p :: 0 <= p < |start| && p != o ==> start[p] == []
    requires forall e, x, s :: e in ent && Points(e, x, s) ==> Ends(h, r, op, start, x, (e.suspect, s))
    ensures EachAtEnd(h, r, op, ranges, o, ent)
  {
    hide CanEnd, Sum, InRanges, StartList, Points;
    EmptySums();
    forall e, x, s | e in ent && Points(e, x, s)
      ensures InRanges(ranges, x) && CanEnd(h, r, op, x, (o, x), (e.suspect, s)) {
      var a: Place :| a.0 < |start| && (x, a.1) in Pairs(start[a.0]) && CanEnd(h, r, op, x, a, (e.suspect, s));
      assert a.0 == o;
      StartPoints(ranges, 0, |h.image|, o, x, a.1);
    }
  }

  lemma FixedStart(sb: Scoreboard, o: nat)
    requires |sb.suspects| == |sb.h.commit| && o < |sb.suspects| && FixedBehind(sb, sb.h.commit[o])
    requires forall p :: 0 <= p < |sb.suspects| && p != o ==> sb.suspects[p] == []
    ensures FixedStops(sb)
  {
    hide FixedOn, RulesOf;
    var live: set<nat> :| sb.h.commit[o] in live && FixedOn(sb, RulesOf(sb), live);
    assert SuspectsIn(sb.h, sb.suspects, live);
  }

  /**
   A blame run over the requested ranges of a file.  In the end every requested line is in exactly one final
   entry, no other line is in any, and every entry points at lines of an origin that have the very text of
   the final lines.  Every line ends up at an end of one of its ways, where no search could have taken
   it further, and without -M and -C exactly where following it alone leads.
   */
  method BlameRanges(sb: Scoreboard, o: nat, ranges: seq<Range>, move: bool, copy: bool)
    requires Ready(sb, None) && o < |sb.suspects| && sb.h.file[o] == sb.h.image
    requires forall p :: 0 <= p < |sb.suspects| ==> sb.suspects[p] == []
    requires sb.ent == [] && ValidRanges(ranges, 0, |sb.h.image|)
    modifies sb`suspects, sb`queue, sb`refcnt, sb`previous, sb`num_commits, sb`ent, sb`guilty, sb`uninteresting
    ensures sb.Shape() && forall x :: Cover(sb.ent)[x] == if InRanges(ranges, x) then 1 else 0
    ensures AllGood(sb.h, sb.ent)
    ensures old(FixedBehind(sb, sb.h.commit[o])) ==>
      EachAtEnd(sb.h, old(RulesOf(sb)), OptionsOf(sb, move, copy), ranges, o, sb.ent)
    ensures old(FixedBehind(sb, sb.h.commit[o])) ==>
      AllExhausted(sb.h, old(RulesOf(sb)), OptionsOf(sb, move, copy), sb.ent)
    ensures !move && !copy && old(FixedBehind(sb, sb.h.commit[o])) ==>
      EachBlamed(sb.h, old(RulesOf(sb)), ranges, o, Positions(sb.ent))
    ensures forall p :: 0 <= p < |sb.suspects| ==> sb.suspects[p] == []
    ensures |sb.refcnt| == old(|sb.refcnt|)
    ensures forall p: nat :: p < |sb.refcnt| ==>
      sb.refcnt[p] - Naming(sb.ent, p) - CountOf(sb.previous, p) == old(sb.refcnt)[p] - CountOf(old(sb.previous), p)
  {
    hide TotalNaming, Naming, Sum, Good, CountOf, Sorted, StartList, Fates, Positions, FixedBehind, FixedStops,
      EachBlamed,
      RulesOf, Free, TotalCover, Ends, EachAtEnd, Points, Exhausted;
    ghost var rules, fixed := RulesOf(sb), FixedBehind(sb, sb.h.commit[o]);
    OneFate(sb.h, rules, sb.suspects, o, StartList(ranges, o));
    AllStartFates(sb.h, rules, ranges, o);
    StartListGood(sb.h, ranges, 0, o);
    SetUp(sb, o, ranges);
    NoPositions();
    NilTotals(sb.h);
    assert RulesOf(sb) == rules && FixedBehind(sb, sb.h.commit[o]) == fixed;
    if fixed { FixedStart(sb, o); }
    PlusNothing(Fates(sb.h, rules, sb.suspects, 0));
    ghost var start := sb.suspects;
    AssignBlame(sb, move, copy);
    if fixed { EndsOfRanges(sb.h, rules, OptionsOf(sb, move, copy), ranges, o, start, sb.ent); }
    AllFree(sb);
  }

  lemma AllFree(sb: Scoreboard)
    requires forall p :: 0 <= p < |sb.suspects| ==> sb.suspects[p] == []
    ensures forall p: nat :: p < |sb.refcnt| ==>
      Free(sb, p) == sb.refcnt[p] - Naming(sb.ent, p) - CountOf(sb.previous, p)
  {
    hide TotalNaming, Naming, CountOf;
    NoNaming(sb.suspects);
  }

  /** The start of a run: the requested lines are what the file's origin is suspected for, and its commit is queued. */
  method SetUp(sb: Scoreboard, o: nat, ranges: seq<Range>)
    requires Ready(sb, None) && o < |sb.suspects| && sb.h.file[o] == sb.h.image
    requires forall p :: 0 <= p < |sb.suspects| ==> sb.suspects[p] == []
    requires sb.ent == [] && ValidRanges(ranges, 0, |sb.h.image|)
    modifies sb`suspects, sb`queue, sb`refcnt
    ensures Ready(sb, None) && |sb.refcnt| == old(|sb.refcnt|)
    ensures sb.suspects == old(sb.suspects)[o := StartList(ranges, o)]
    ensures TotalCover(sb.suspects) == Cover(StartList(ranges, o))
    ensures forall p: nat :: p < |sb.refcnt| ==> Free(sb, p) == old(sb.refcnt)[p] - CountOf(old(sb.previous), p)
  {
    hide TotalNaming, TotalWeight, Naming, Sum, Good, CountOf, Sorted, StartList, InRanges, ValidRanges, Weight;
    StartListGood(sb.h, ranges, 0, o);
    AllEmpty(sb.suspects);
    NoNaming(sb.suspects);
    NilTotals(sb.h);
    var ent := StartEntries(sb, o, ranges);
    TotalUpdate(sb.h, sb.suspects, o, ent);
    sb.suspects := sb.suspects[o := ent];
    NothingElse(TotalCover(sb.suspects), Cover(ent));
    sb.queue := sb.queue + [sb.h.commit[o]];
    assert forall p: nat :: p < |sb.refcnt| ==> Free(sb, p) == old(sb.refcnt)[p] - CountOf(old(sb.previous), p);
  }

  /** The entries of a run: one for every range, prepended from the last range to the first. */
  method StartEntries(sb: Scoreboard, o: nat, ranges: seq<Range>) returns (ent: seq<Entry>)
    requires o < |sb.refcnt| && ValidRanges(ranges, 0, |sb.h.image|)
    modifies sb`refcnt
    ensures ent == StartList(ranges, o) && |sb.refcnt| == old(|sb.refcnt|)
    ensures forall p: nat :: p < |sb.refcnt| ==> sb.refcnt[p] == old(sb.refcnt)[p] + Naming(ent, p)
  {
    hide Naming, Sum, StartList;
    var i := |ranges|;
    ent := [];
    NilTotals(sb.h);
    StartNil(o);
    assert ranges[i..] == [];
    while i > 0
      modifies sb`refcnt
      invariant 0 <= i <= |ranges| && ent == StartList(ranges[i..], o)
      invariant |sb.refcnt| == old(|sb.refcnt|)
      invariant forall p: nat :: p < |sb.refcnt| ==> sb.refcnt[p] == old(sb.refcnt)[p] + Naming(ent, p)
    {
      RangesAt(ranges, 0, |sb.h.image|, i - 1);
      StartStep(ranges, i - 1, o);
      NamingCons(Entry(ranges[i - 1].start, ranges[i - 1].end - ranges[i - 1].start, o, ranges[i - 1].start, 0), ent);
      ent := BlameEntryPrepend(sb, ent, ranges[i - 1].start, ranges[i - 1].end, o);
      i := i - 1;
    }
    assert ranges[0..] == ranges;
  }

  lemma NoPositions()
    ensures Positions([]) == multiset{}
  {
  }

  lemma StartNil(o: nat)
    ensures StartList([], o) == []
  {
  }

  lemma StartStep(rs: seq<Range>, i: nat, o: nat)
    requires i < |rs| && rs[i].start <= rs[i].end
    ensures StartList(rs[i..], o)
      == [Entry(rs[i].start, rs[i].end - rs[i].start, o, rs[i].start, 0)] + StartList(rs[i + 1..], o)
  {
    assert rs[i..][0] == rs[i] && rs[i..][1..] == rs[i + 1..];
  }

  lemma {:induction false} NoNaming(sus: seq<seq<Entry>>)
    ensures (forall o :: 0 <= o < |sus| ==> sus[o] == []) ==> forall p: nat :: TotalNaming(sus, p) == 0
  {
    if sus != [] { NoNaming(sus[1..]); }
  }
}
