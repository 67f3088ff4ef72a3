/**
 Looking for copies in any file the tree diff with a parent names (find_copy_in_parent in
 git-2.15.0/blame.c).  The best split of every entry over all those files is found first.
 */
module BlameCopy {
  import opened BlameEntries
  import opened BlameHistory
  import opened BlameCut
  import opened BlameMove
  import opened BlameSearch

  /** The files find_copy_in_parent looks at, of those in queue: all but the one find_move already dealt with. */
  ghost function Others(queue: seq<nat>, porigin: Option<nat>): seq<nat>
  {
    if queue == [] then []
    else Others(queue[..|queue| - 1], porigin)
         + if porigin == Some(queue[|queue| - 1]) then [] else [queue[|queue| - 1]]
  }

  /** The files of the tree diff with a parent that are searched for copies. */
  ghost function Tried(h: History, parent: nat, target: nat, porigin: Option<nat>): seq<nat>
  {
    Others(h.copies(parent, target), porigin)
  }

  lemma {:induction false} OthersAre(queue: seq<nat>, porigin: Option<nat>)
    ensures forall c :: c in Others(queue, porigin) <==> c in queue && porigin != Some(c)
  {
    if queue != [] {
      OthersAre(queue[..|queue| - 1], porigin);
      assert queue == queue[..|queue| - 1] + [queue[|queue| - 1]];
    }
  }

  /** The files are tried in the order of the tree diff. */
  lemma {:induction false} OthersConcat(a: seq<nat>, b: seq<nat>, porigin: Option<nat>)
    ensures Others(a + b, porigin) == Others(a, porigin) + Others(b, porigin)
    decreases |b|
  {
    if b == [] {
      assert a + b == a;
    } else {
      assert (a + b)[..|a + b| - 1] == a + b[..|b| - 1];
      OthersConcat(a, b[..|b| - 1], porigin);
    }
  }

  lemma TriedLower(h: History, parent: nat, target: nat, porigin: Option<nat>)
    requires h.Valid() && target < |h.commit| && parent < |h.parents| && h.rank[parent] < h.rank[h.commit[target]]
    ensures FilesLower(h, Tried(h, parent, target, porigin), target)
    ensures FilesExist(h, Tried(h, parent, target, porigin))
  {
    OthersAre(h.copies(parent, target), porigin);
    forall c | c in Tried(h, parent, target, porigin) ensures LowerOrigin(h, c, target) {
      var i :| 0 <= i < |h.copies(parent, target)| && h.copies(parent, target)[i] == c;
    }
    LowerExist(h, Tried(h, parent, target, porigin), target);
  }

  ghost function SplitsRefs(ss: seq<Split>, o: nat): nat
  {
    if ss == [] then 0 else SplitRefs(ss[0], o) + SplitsRefs(ss[1..], o)
  }

  lemma {:induction false} SplitsUpdate(ss: seq<Split>, j: nat, s: Split, o: nat)
    requires j < |ss|
    ensures SplitsRefs(ss[j := s], o) + SplitRefs(ss[j], o) == SplitsRefs(ss, o) + SplitRefs(s, o)
  {
    if j == 0 {
      assert ss[j := s][1..] == ss[1..];
    } else {
      assert ss[j := s][1..] == ss[1..][j - 1 := s];
      SplitsUpdate(ss[1..], j - 1, s, o);
    }
  }

  lemma SplitsUpdateAll(ss: seq<Split>, j: nat, s: Split)
    requires j < |ss|
    ensures forall o: nat :: SplitsRefs(ss[j := s], o) + SplitRefs(ss[j], o) == SplitsRefs(ss, o) + SplitRefs(s, o)
  {
    forall o: nat ensures SplitsRefs(ss[j := s], o) + SplitRefs(ss[j], o) == SplitsRefs(ss, o) + SplitRefs(s, o) {
      SplitsUpdate(ss, j, s, o);
    }
  }

  /** Every split is at the last of the best stretches that its entry has in common with the files. */
  ghost predicate BestOver(h: History, ents: seq<Entry>, splits: seq<Split>, files: seq<nat>)
  {
    |splits| == |ents| && forall j :: 0 <= j < |ents| ==> BestAt(h, ents[j], splits[j], files)
  }

  ghost predicate BestAt(h: History, e: Entry, s: Split, files: seq<nat>)
  {
    Splits(h, e, s, LastBest(h, e, Matches(h, e, files)))
  }

  lemma BestAtMore(h: History, e: Entry, best: Split, files: seq<nat>, this_: Split, c: nat, s: Split)
    requires Good(h, e) && BestAt(h, e, best, files) && Splits(h, e, this_, LastBest(h, e, MatchesIn(h, e, c)))
    requires SameSplit(s, Better(h, best, this_)) && (s.mid.Some? ==> Good(h, s.mid.value))
    ensures BestAt(h, e, s, files + [c])
  {
    hide Good, Splits, LastBest, MatchesIn, Better, SameSplit;
    assert (files + [c])[..|files|] == files;
    var ts, us := Matches(h, e, files), MatchesIn(h, e, c);
    LastBestConcat(h, e, ts, us);
    SplitsBetter(h, e, best, LastBest(h, e, ts), this_, LastBest(h, e, us), s);
  }

  /** The inner loop of find_copy_in_parent for one file: every entry's best split so far is improved. */
  method TryFile(sb: Scoreboard, ents: seq<Entry>, splits: seq<Split>, norigin: nat, ghost files: seq<nat>)
    returns (splits': seq<Split>)
    requires sb.Shape() && norigin < |sb.h.file| && AllGood(sb.h, ents) && BestOver(sb.h, ents, splits, files)
    modifies sb`refcnt
    ensures sb.Shape() && BestOver(sb.h, ents, splits', files + [norigin])
    ensures forall o: nat :: o < |sb.refcnt| ==>
      sb.refcnt[o] == old(sb.refcnt)[o] + SplitsRefs(splits', o) - SplitsRefs(splits, o)
  {
    hide Naming, Good, Splits, BestAt, SplitsRefs, SplitRefs, SameSplit, Better;
    ShapeSizes(sb);
    splits' := splits;
    var j := 0;
    while j < |ents|
      invariant j <= |ents| == |splits'| && sb.Shape() && splits'[j..] == splits[j..]
      invariant forall k :: 0 <= k < j ==> BestAt(sb.h, ents[k], splits'[k], files + [norigin])
      invariant forall o: nat :: o < |sb.refcnt| ==>
        sb.refcnt[o] == old(sb.refcnt)[o] + SplitsRefs(splits', o) - SplitsRefs(splits, o)
    {
      var best := splits'[j];
      assert best == splits[j] by { assert splits'[j..][0] == splits[j..][0]; }
      var this_ := FindCopyInBlob(sb, ents[j], norigin);
      SplitsSuspects(sb.h, ents[j], this_, LastBest(sb.h, ents[j], MatchesIn(sb.h, ents[j], norigin)));
      BestSuspects(sb.h, ents[j], best, files);
      var s := CopySplitIfBetter(sb, best, this_);
      BestAtMore(sb.h, ents[j], best, files, this_, norigin, s);
      DecSplit(sb, this_);
      SplitsUpdateAll(splits', j, s);
      splits' := splits'[j := s];
      j := j + 1;
    }
  }

  lemma BestSuspects(h: History, e: Entry, s: Split, files: seq<nat>)
    requires Good(h, e) && BestAt(h, e, s, files)
    ensures forall x :: x in Opt(s.pre) + Opt(s.mid) + Opt(s.post) ==> x.suspect < |h.file|
    ensures s.mid.Some? ==> Good(h, s.mid.value)
  {
    hide Good, Splits;
    SplitsSuspects(h, e, s, LastBest(h, e, Matches(h, e, files)));
  }

  lemma BestNone(h: History, ents: seq<Entry>)
    ensures BestOver(h, ents, seq(|ents|, _ => NO_SPLIT), [])
  {
    forall j | 0 <= j < |ents| ensures BestAt(h, ents[j], NO_SPLIT, []) {
      SplitsNone(h, ents[j]);
    }
  }

  /** For every entry, the split at the last of the best stretches over all the files tried. */
  method BestSplits(sb: Scoreboard, ents: seq<Entry>, parent: nat, target: nat, porigin: Option<nat>)
    returns (splits: seq<Split>)
    requires sb.Shape() && target < |sb.h.commit| && parent < |sb.h.parents|
    requires AllGood(sb.h, ents)
    modifies sb`refcnt
    ensures sb.Shape() && BestOver(sb.h, ents, splits, Tried(sb.h, parent, target, porigin))
    ensures forall o: nat :: o < |sb.refcnt| ==> sb.refcnt[o] == old(sb.refcnt)[o] + SplitsRefs(splits, o)
  {
    hide Naming, Good, BestOver, SplitsRefs, SplitRefs, Others;
    ShapeSizes(sb);
    splits := seq(|ents|, _ => NO_SPLIT);
    NoRefs(splits);
    BestNone(sb.h, ents);
    var queue := sb.h.copies(parent, target);
    OthersNone(porigin);
    assert queue[..0] == [];
    var i := 0;
    while i < |queue|
      invariant i <= |queue| && sb.Shape() && BestOver(sb.h, ents, splits, Others(queue[..i], porigin))
      invariant forall o: nat :: o < |sb.refcnt| ==> sb.refcnt[o] == old(sb.refcnt)[o] + SplitsRefs(splits, o)
    {
      OthersStep(queue, i, porigin);
      if porigin != Some(queue[i]) {
        var norigin := queue[i];
        sb.IncRef(norigin);
        splits := TryFile(sb, ents, splits, norigin, Others(queue[..i], porigin));
        sb.DecRef(norigin);
      }
      i := i + 1;
    }
    assert queue[..i] == queue;
  }

  lemma OthersNone(porigin: Option<nat>)
    ensures Others([], porigin) == []
  {
  }

  lemma OthersStep(queue: seq<nat>, i: nat, porigin: Option<nat>)
    requires i < |queue|
    ensures Others(queue[..i + 1], porigin)
      == if porigin == Some(queue[i]) then Others(queue[..i], porigin) else Others(queue[..i], porigin) + [queue[i]]
  {
    assert queue[..i + 1][..i] == queue[..i];
  }

  lemma {:induction false} NoRefs(ss: seq<Split>)
    requires forall j :: 0 <= j < |ss| ==> ss[j] == NO_SPLIT
    ensures forall o: nat :: SplitsRefs(ss, o) == 0
  {
    if ss != [] { NoRefs(ss[1..]); }
  }

  lemma NoSplits()
    ensures forall o: nat :: SplitsRefs([], o) == 0
  {
  }

  lemma SplitsHead(ss: seq<Split>, j: nat)
    requires j < |ss|
    ensures forall o: nat :: SplitsRefs(ss[j..], o) == SplitRefs(ss[j], o) + SplitsRefs(ss[j + 1..], o)
  {
    assert ss[j..][0] == ss[j] && ss[j..][1..] == ss[j + 1..];
  }

  /** One pass of find_copy_in_parent: best splits first, then every entry is settled. */
  method CopyPass(sb: Scoreboard, target: nat, parent: nat, porigin: Option<nat>,
                  blamed: seq<Entry>, unblamed: seq<Entry>, leftover: seq<Entry>)
    returns (blamed': seq<Entry>, unblamed': seq<Entry>, leftover': seq<Entry>)
    requires sb.Shape() && target < |sb.h.commit| && parent < |sb.h.parents| && AllGood(sb.h, unblamed)
    modifies sb`refcnt
    ensures sb.Shape()
    ensures var d := DealAll(sb.h, unblamed, Tried(sb.h, parent, target, porigin), sb.copy_score);
      blamed' == blamed + d.passed && unblamed' == d.aside && Rev(leftover') == Rev(leftover) + d.left
    ensures forall o: nat :: o < |sb.refcnt| ==>
      sb.refcnt[o] == old(sb.refcnt)[o] + Held(blamed', unblamed', leftover', o) - Held(blamed, unblamed, leftover, o)
  {
    hide Naming, Good, DealOne, DealAll, Splits, LastBest, Matches, Rev, Tried, SplitsRefs, SplitRefs;
    ghost var files := Tried(sb.h, parent, target, porigin);
    var splits := BestSplits(sb, unblamed, parent, target, porigin);
    blamed', unblamed', leftover' := blamed, [], leftover;
    DealNil(sb.h, files, sb.copy_score);
    EmptySums();
    NoSplits();
    var j := 0;
    assert unblamed[0..] == unblamed && splits[0..] == splits;
    while j < |unblamed|
      invariant j <= |unblamed| == |splits| && sb.Shape()
      invariant var d, a :=
        DealAll(sb.h, unblamed, files, sb.copy_score), DealAll(sb.h, unblamed[j..], files, sb.copy_score);
        && blamed' + a.passed == blamed + d.passed && unblamed' + a.aside == d.aside
        && Rev(leftover') + a.left == Rev(leftover) + d.left
      invariant forall o: nat :: o < |sb.refcnt| ==>
        sb.refcnt[o] == old(sb.refcnt)[o] + SplitsRefs(splits[j..], o)
                        + Held(blamed', unblamed', leftover', o) + Naming(unblamed[j..], o)
                        - Held(blamed, unblamed, leftover, o)
    {
      HeadOff(unblamed[j..]);
      SplitsHead(splits, j);
      assert unblamed[j..][1..] == unblamed[j + 1..];
      DealStep(sb.h, unblamed[j..], files, sb.copy_score, blamed', unblamed', leftover');
      blamed', unblamed', leftover' :=
        Settle(sb, unblamed[j], splits[j], sb.copy_score, files, blamed', unblamed', leftover');
      j := j + 1;
    }
    assert unblamed[j..] == [] && splits[j..] == [];
  }

  /** One round of find_copy_in_parent: a pass, and filter_small on what it put aside. */
  method CopyRound(sb: Scoreboard, target: nat, parent: nat, porigin: Option<nat>, blamed: seq<Entry>,
                   toosmall: seq<Entry>, link: nat, unblamed: seq<Entry>, leftover: seq<Entry>)
    returns (blamed': seq<Entry>, toosmall': seq<Entry>, link': nat, unblamed': seq<Entry>, leftover': seq<Entry>)
    requires sb.Shape() && target < |sb.h.commit| && parent < |sb.h.parents|
    requires sb.h.rank[parent] < sb.h.rank[sb.h.commit[target]]
    requires AllGood(sb.h, unblamed) && link <= |toosmall|
    modifies sb`refcnt
    ensures sb.Shape()
    ensures var d := DealAll(sb.h, unblamed, Tried(sb.h, parent, target, porigin), sb.copy_score);
      var moved := OfSize(sb.h, d.aside, sb.copy_score, true);
      && blamed' == blamed + d.passed && Rev(leftover') == Rev(leftover) + d.left
      && toosmall' == toosmall[..link] + moved + toosmall[link..] && link' == link + |moved|
      && unblamed' == OfSize(sb.h, d.aside, sb.copy_score, false)
    ensures forall o: nat :: o < |sb.refcnt| ==>
      sb.refcnt[o] == old(sb.refcnt)[o] + Held4(blamed', toosmall', unblamed', leftover', o)
                      - Held4(blamed, toosmall, unblamed, leftover, o)
  {
    hide Naming, Good, OfSize, DealAll, LinesScore, Rev, Tried;
    TriedLower(sb.h, parent, target, porigin);
    DealGood(sb.h, unblamed, Tried(sb.h, parent, target, porigin), sb.copy_score);
    var aside;
    blamed', aside, leftover' := CopyPass(sb, target, parent, porigin, blamed, unblamed, leftover);
    SmallNaming(toosmall, link, OfSize(sb.h, aside, sb.copy_score, true));
    OfSizeParts(sb.h, aside, sb.copy_score);
    toosmall', link', unblamed' := FilterSmall(sb.h, toosmall, link, aside, sb.copy_score);
  }

  /** find_copy_in_parent: as find_move_in_parent, over all the files of the tree diff with the parent. */
  method FindCopyInParent(sb: Scoreboard, blamed: seq<Entry>, toosmall: seq<Entry>, target: nat, parent: nat,
                          porigin: Option<nat>)
    returns (blamed': seq<Entry>, toosmall': seq<Entry>)
    requires sb.Shape() && target < |sb.suspects| && parent < |sb.h.parents|
    requires sb.h.rank[parent] < sb.h.rank[sb.h.commit[target]]
    requires Mine(sb.h, sb.suspects[target], target)
    modifies sb`refcnt, sb`suspects
    ensures sb.Shape() && FilesExist(sb.h, Tried(sb.h, parent, target, porigin))
    ensures var files := Tried(sb.h, parent, target, porigin);
      var r := Search(sb.h, old(sb.suspects)[target], files, sb.copy_score);
      && blamed' == blamed + r.passed && toosmall' == r.aside + toosmall
      && sb.suspects == old(sb.suspects)[target := r.left]
      && Dealt(sb.h, old(sb.suspects)[target], r, files, sb.copy_score, target)
      && AllSmall(sb.h, r.aside, sb.copy_score)
    ensures forall o: nat :: o < |sb.refcnt| ==>
      sb.refcnt[o] == old(sb.refcnt)[o] + HeldBy(blamed', toosmall', sb.suspects[target], o)
                      - HeldBy(blamed, toosmall, old(sb.suspects)[target], o)
  {
    hide Naming, Good, Size, OfSize, DealAll, Search, Underway, Dealt, LinesScore, Rev, LowerOrigin, FilesLower,
      AllSmall, Held, HeldBy, Held4, Tried;
    ShapeSizes(sb);
    var unblamed, leftover := sb.suspects[target], [];
    ghost var es, files := unblamed, Tried(sb.h, parent, target, porigin);
    TriedLower(sb.h, parent, target, porigin);
    blamed', toosmall' := blamed, toosmall;
    SearchMeans(sb.h, es, files, sb.copy_score, target);
    UnderwayStart(sb.h, es, files, sb.copy_score, blamed, toosmall);
    HeldStart(blamed, toosmall, es);
    var link: nat := 0;
    if unblamed == [] {
      UnderwayEnd(sb.h, es, files, sb.copy_score, blamed, toosmall, blamed', toosmall', link, leftover);
      NothingLeft(sb.suspects, target);
      return;
    }
    while true
      invariant sb.Shape() && sb.suspects == old(sb.suspects) && link <= |toosmall'|
      invariant unblamed != [] && AllGood(sb.h, unblamed)
      invariant Underway(sb.h, es, files, sb.copy_score, blamed, toosmall, blamed', toosmall', link, unblamed, leftover)
      invariant forall o: nat :: o < |sb.refcnt| ==>
        sb.refcnt[o] == old(sb.refcnt)[o] + Held4(blamed', toosmall', unblamed, leftover, o)
                        - HeldBy(blamed, toosmall, es, o)
      decreases Size(unblamed)
    {
      UnderwayNext(sb.h, es, files, sb.copy_score, blamed, toosmall, blamed', toosmall', link, unblamed, leftover);
      blamed', toosmall', link, unblamed, leftover :=
        CopyRound(sb, target, parent, porigin, blamed', toosmall', link, unblamed, leftover);
      if unblamed == [] { break; }
    }
    UnderwayEnd(sb.h, es, files, sb.copy_score, blamed, toosmall, blamed', toosmall', link, leftover);
    HeldStart(blamed', toosmall', []);
    var suspects := ReverseBlame(leftover, []);
    sb.suspects := sb.suspects[target := suspects];
  }
}
