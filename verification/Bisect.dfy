/**
 Choosing the commit to test next (git-2.15.0/bisect.c).  Commits are numbers; the COUNTED flags are the
 set of commits that carry them, and the weights array is indexed by commit.
 */
module Bisect {

  datatype Option<+T> = None | Some(value: T)

  datatype Graph = Graph(parents: seq<seq<nat>>, uninteresting: seq<bool>, treesame: seq<bool>, rank: seq<nat>)
  {
    /** Acyclic: a parent has a smaller rank. */
    ghost predicate Valid()
    {
      && |parents| == |uninteresting| == |treesame| == |rank|
      && forall c, i :: 0 <= c < |parents| && 0 <= i < |parents[c]| ==>
           parents[c][i] < |parents| && rank[parents[c][i]] < rank[c]
    }
  }

  // ---------------------------------------------------------------------------------------------
  // Reachability

  /** The interesting commits that c reaches through interesting commits, itself among them. */
  ghost function Reach(g: Graph, c: nat): set<nat>
    requires g.Valid() && c < |g.parents|
    decreases g.rank[c], 1, 0
  {
    if g.uninteresting[c] then {} else {c} + ReachAll(g, g.parents[c], g.rank[c])
  }

  ghost function ReachAll(g: Graph, ps: seq<nat>, bound: nat): set<nat>
    requires g.Valid() && forall i :: 0 <= i < |ps| ==> ps[i] < |g.parents| && g.rank[ps[i]] < bound
    decreases bound, 0, |ps|
  {
    if ps == [] then {} else Reach(g, ps[0]) + ReachAll(g, ps[1..], bound)
  }

  /** The tree-changing commits among a set. */
  ghost function Changing(g: Graph, s: set<nat>): set<nat>
    requires |g.treesame| == |g.parents|
  {
    set x | x in s && x < |g.parents| && !g.treesame[x]
  }

  /** The exhaustive count: tree-changing commits reachable. */
  ghost function Weight(g: Graph, c: nat): nat
    requires g.Valid() && c < |g.parents|
  {
    |Changing(g, Reach(g, c))|
  }

  lemma {:induction false} ReachAllHas(g: Graph, ps: seq<nat>, bound: nat, x: nat)
    requires g.Valid() && forall i :: 0 <= i < |ps| ==> ps[i] < |g.parents| && g.rank[ps[i]] < bound
    ensures x in ReachAll(g, ps, bound) <==> exists i :: 0 <= i < |ps| && x in Reach(g, ps[i])
  {
    if ps != [] {
      ReachAllHas(g, ps[1..], bound, x);
      if x in Reach(g, ps[0]) { assert x in Reach(g, ps[0]); }
      if exists i :: 0 <= i < |ps[1..]| && x in Reach(g, ps[1..][i]) {
        var i :| 0 <= i < |ps[1..]| && x in Reach(g, ps[1..][i]);
        assert x in Reach(g, ps[i + 1]);
      }
      if exists i :: 0 <= i < |ps| && x in Reach(g, ps[i]) {
        var i :| 0 <= i < |ps| && x in Reach(g, ps[i]);
        if i > 0 { assert x in Reach(g, ps[1..][i - 1]); }
      }
    }
  }

  /** One step: c itself, or what one of its parents reaches. */
  lemma ReachStep(g: Graph, c: nat, x: nat)
    requires g.Valid() && c < |g.parents| && !g.uninteresting[c]
    ensures x in Reach(g, c) <==> x == c || exists i :: 0 <= i < |g.parents[c]| && x in Reach(g, g.parents[c][i])
  {
    ReachAllHas(g, g.parents[c], g.rank[c], x);
  }

  lemma ReachParent(g: Graph, c: nat, i: nat)
    requires g.Valid() && c < |g.parents| && !g.uninteresting[c] && i < |g.parents[c]|
    ensures Reach(g, g.parents[c][i]) <= Reach(g, c)
  {
    hide Reach;
    forall x | x in Reach(g, g.parents[c][i]) ensures x in Reach(g, c) { ReachStep(g, c, x); }
  }

  /** What is reached is an interesting commit of no larger rank. */
  lemma {:induction false} ReachBelow(g: Graph, c: nat, x: nat)
    requires g.Valid() && c < |g.parents| && x in Reach(g, c)
    ensures x < |g.parents| && g.rank[x] <= g.rank[c] && !g.uninteresting[x]
    decreases g.rank[c]
  {
    hide Reach;
    if g.uninteresting[c] {
      NoReach(g, c);
    } else {
      ReachStep(g, c, x);
      if x != c {
        var i :| 0 <= i < |g.parents[c]| && x in Reach(g, g.parents[c][i]);
        ReachBelow(g, g.parents[c][i], x);
      }
    }
  }

  lemma NoReach(g: Graph, c: nat)
    requires g.Valid() && c < |g.parents| && g.uninteresting[c]
    ensures Reach(g, c) == {}
  {
  }

  /** A chain of interesting commits, each a parent of the one before. */
  ghost predicate IsPath(g: Graph, path: seq<nat>)
    requires g.Valid()
  {
    && path != []
    && (forall k :: 0 <= k < |path| ==> path[k] < |g.parents| && !g.uninteresting[path[k]])
    && (forall k :: 0 <= k < |path| - 1 ==> path[k + 1] in g.parents[path[k]])
  }

  /** Reach is reachability: x is in it exactly if a chain leads from c to x. */
  lemma {:induction false} ReachIsPath(g: Graph, c: nat, x: nat)
    requires g.Valid() && c < |g.parents|
    ensures x in Reach(g, c) <==> exists path :: IsPath(g, path) && path[0] == c && path[|path| - 1] == x
    decreases g.rank[c]
  {
    hide Reach;
    if x in Reach(g, c) {
      ReachBelow(g, c, x);
      if !g.uninteresting[c] { ReachStep(g, c, x); } else { NoReach(g, c); }
      if x == c {
        assert IsPath(g, [c]);
      } else {
        var i :| 0 <= i < |g.parents[c]| && x in Reach(g, g.parents[c][i]);
        ReachIsPath(g, g.parents[c][i], x);
        var path :| IsPath(g, path) && path[0] == g.parents[c][i] && path[|path| - 1] == x;
        assert IsPath(g, [c] + path);
      }
    }
    if exists path :: IsPath(g, path) && path[0] == c && path[|path| - 1] == x {
      var path :| IsPath(g, path) && path[0] == c && path[|path| - 1] == x;
      PathReached(g, path);
    }
  }

  lemma {:induction false} PathReached(g: Graph, path: seq<nat>)
    requires g.Valid() && IsPath(g, path)
    ensures path[|path| - 1] in Reach(g, path[0])
    decreases |path|
  {
    hide Reach;
    ReachStep(g, path[0], path[|path| - 1]);
    if |path| > 1 {
      assert IsPath(g, path[1..]);
      PathReached(g, path[1..]);
      var i :| 0 <= i < |g.parents[path[0]]| && g.parents[path[0]][i] == path[1];
    }
  }

  /** A set with c that has every interesting parent of its members has all that c reaches. */
  lemma {:induction false} ClosedHasReach(g: Graph, s: set<nat>, c: nat)
    requires g.Valid() && c < |g.parents| && (g.uninteresting[c] || c in s)
    requires forall x, i :: x in s && x < |g.parents| && 0 <= i < |g.parents[x]| ==>
      g.uninteresting[g.parents[x][i]] || g.parents[x][i] in s
    ensures Reach(g, c) <= s
    decreases g.rank[c]
  {
    hide Reach;
    if g.uninteresting[c] {
      NoReach(g, c);
    } else {
      forall x | x in Reach(g, c) ensures x in s {
        ReachStep(g, c, x);
        if x != c {
          var i :| 0 <= i < |g.parents[c]| && x in Reach(g, g.parents[c][i]);
          ClosedHasReach(g, s, g.parents[c][i]);
        }
      }
    }
  }

  lemma ChangingSplit(g: Graph, a: set<nat>, b: set<nat>)
    requires |g.treesame| == |g.parents| && a !! b
    ensures |Changing(g, a + b)| == |Changing(g, a)| + |Changing(g, b)|
  {
    assert Changing(g, a + b) == Changing(g, a) + Changing(g, b);
    assert Changing(g, a) !! Changing(g, b);
  }

  lemma ChangingOne(g: Graph, c: nat)
    requires |g.treesame| == |g.parents| && c < |g.parents|
    ensures |Changing(g, {c})| == if g.treesame[c] then 0 else 1
  {
    assert Changing(g, {c}) == if g.treesame[c] then {} else {c};
  }

  // ---------------------------------------------------------------------------------------------
  // Weights from the interesting parents

  function InterestingParents(g: Graph, ps: seq<nat>): (r: seq<nat>)
    requires forall i :: 0 <= i < |ps| ==> ps[i] < |g.uninteresting|
    ensures forall q :: q in r <==> q in ps && q < |g.uninteresting| && !g.uninteresting[q]
  {
    if ps == [] then [] else
    (if g.uninteresting[ps[0]] then [] else [ps[0]]) + InterestingParents(g, ps[1..])
  }

  function ParentsOf(g: Graph, c: nat): (r: seq<nat>)
    requires g.Valid() && c < |g.parents|
    ensures forall q :: q in r <==> q in g.parents[c] && q < |g.uninteresting| && !g.uninteresting[q]
  {
    InterestingParents(g, g.parents[c])
  }

  /** count_interesting_parents */
  method CountInterestingParents(g: Graph, c: nat) returns (count: nat)
    requires g.Valid() && c < |g.parents|
    ensures count == |ParentsOf(g, c)|
  {
    var ps := g.parents[c];
    var i := 0;
    count := 0;
    while i < |ps|
      invariant 0 <= i <= |ps|
      invariant count + |InterestingParents(g, ps[i..])| == |ParentsOf(g, c)|
    {
      if !g.uninteresting[ps[i]] { count := count + 1; }
      i := i + 1;
    }
  }

  /** Without an interesting parent a commit counts itself only. */
  lemma WeightAlone(g: Graph, c: nat)
    requires g.Valid() && c < |g.parents| && !g.uninteresting[c] && ParentsOf(g, c) == []
    ensures Weight(g, c) == if g.treesame[c] then 0 else 1
  {
    hide Reach, ReachAll, Changing, ParentsOf;
    forall x ensures x in Reach(g, c) <==> x in {c} {
      ReachStep(g, c, x);
      if i :| 0 <= i < |g.parents[c]| && x in Reach(g, g.parents[c][i]) {
        assert g.parents[c][i] !in ParentsOf(g, c);
        NoReach(g, g.parents[c][i]);
      }
    }
    assert Reach(g, c) == {c};
    ChangingOne(g, c);
  }

  /** With one interesting parent a commit counts what that parent counts, and itself. */
  lemma WeightAbove(g: Graph, c: nat, q: nat)
    requires g.Valid() && c < |g.parents| && !g.uninteresting[c] && ParentsOf(g, c) == [q]
    ensures q < |g.parents| && g.rank[q] < g.rank[c]
    ensures Weight(g, c) == Weight(g, q) + if g.treesame[c] then 0 else 1
  {
    hide Reach, ReachAll, Changing, ParentsOf;
    assert q in ParentsOf(g, c);
    var k :| 0 <= k < |g.parents[c]| && g.parents[c][k] == q;
    if c in Reach(g, q) { ReachBelow(g, q, c); }
    forall x ensures x in Reach(g, c) <==> x in Reach(g, q) + {c} {
      ReachStep(g, c, x);
      if i :| 0 <= i < |g.parents[c]| && x in Reach(g, g.parents[c][i]) {
        if g.parents[c][i] != q {
          assert g.parents[c][i] !in ParentsOf(g, c);
          NoReach(g, g.parents[c][i]);
        }
      }
    }
    assert Reach(g, c) == Reach(g, q) + {c};
    ChangingOne(g, c);
    ChangingSplit(g, Reach(g, q), {c});
  }

  // ---------------------------------------------------------------------------------------------
  // The list that is bisected

  /** A list of interesting commits that holds each of their interesting parents, each once. */
  ghost predicate Closed(g: Graph, list: seq<nat>)
    requires g.Valid()
  {
    && (forall i :: 0 <= i < |list| ==> list[i] < |g.parents| && !g.uninteresting[list[i]])
    && (forall c, i :: c in list && c < |g.parents| && 0 <= i < |g.parents[c]| ==>
         g.uninteresting[g.parents[c][i]] || g.parents[c][i] in list)
  }

  ghost predicate Distinct(list: seq<nat>)
  {
    forall i, j :: 0 <= i < j < |list| ==> list[i] != list[j]
  }

  function Members(list: seq<nat>): set<nat> {
    set x | x in list
  }

  /** How many commits of the list change the tree. */
  function CountChanging(g: Graph, list: seq<nat>): nat
    requires forall i :: 0 <= i < |list| ==> list[i] < |g.treesame|
  {
    if list == [] then 0 else
    (if g.treesame[list[0]] then 0 else 1) + CountChanging(g, list[1..])
  }

  lemma {:induction false} CountIsSize(g: Graph, list: seq<nat>)
    requires |g.treesame| == |g.parents| && Distinct(list)
    requires forall i :: 0 <= i < |list| ==> list[i] < |g.parents|
    ensures CountChanging(g, list) == |Changing(g, Members(list))|
  {
    if list == [] {
      NoneChanging(g);
      assert Members(list) == {};
    } else {
      CountIsSize(g, list[1..]);
      var rest := Members(list[1..]);
      ChangingOne(g, list[0]);
      ChangingSplit(g, {list[0]}, rest);
      assert Members(list) == {list[0]} + rest;
    }
  }

  /** The commits the progress counter is about: tree-changing ones and merges. */
  ghost predicate Tallied(g: Graph, c: nat)
    requires g.Valid() && c < |g.parents|
  {
    !g.treesame[c] || |ParentsOf(g, c)| >= 2
  }

  /** No merge of interesting parents leaves the tree as it is. */
  ghost predicate NoSameMerge(g: Graph, list: seq<nat>)
    requires g.Valid()
  {
    forall c :: c in list && c < |g.parents| && g.treesame[c] ==> |ParentsOf(g, c)| < 2
  }

  // ---------------------------------------------------------------------------------------------
  // What the weights say

  /** Every weight that is set is the exhaustive count; -1 and -2 stand for one parent and for more. */
  ghost predicate Right(g: Graph, list: seq<nat>, w: seq<int>)
    requires g.Valid()
  {
    && |w| == |g.parents|
    && forall c :: c in list && c < |w| ==>
         && w[c] >= -2
         && (w[c] >= 0 ==> w[c] == Weight(g, c))
         && (w[c] == -1 ==> |ParentsOf(g, c)| == 1)
         && (w[c] == -2 ==> |ParentsOf(g, c)| >= 2)
  }

  lemma InGraph(g: Graph, list: seq<nat>, n: nat)
    requires g.Valid() && Closed(g, list) && n < |list|
    ensures list[n] < |g.parents|
  {
  }

  /** The weight or marker of one more commit. */
  lemma StartedRight(g: Graph, list: seq<nat>, c: nat, w: seq<int>, v: int)
    requires g.Valid() && Right(g, list, w) && c < |w| && c !in list && v >= -2
    requires v >= 0 ==> v == Weight(g, c)
    requires v == -1 ==> |ParentsOf(g, c)| == 1
    requires v == -2 ==> |ParentsOf(g, c)| >= 2
    ensures Right(g, list + [c], w[c := v])
  {
    hide Weight, ParentsOf;
  }

  lemma StartedTally(g: Graph, list: seq<nat>, c: nat, w: seq<int>, v: int)
    requires g.Valid() && |w| == |g.parents| && c < |w| && c !in list
    requires v < 0 || v == 0 || v == 1
    requires v == 0 ==> !Tallied(g, c)
    requires v == 1 ==> Tallied(g, c)
    ensures |TallySet(g, list + [c], w[c := v])| == |TallySet(g, list, w)| + if v == 1 then 1 else 0
  {
    hide Tallied;
    var one: set<nat> := if v == 1 then {c} else {};
    assert TallySet(g, list + [c], w[c := v]) == TallySet(g, list, w) + one;
  }

  ghost predicate NoMergeLeft(list: seq<nat>, w: seq<int>)
  {
    forall c :: c in list && c < |w| ==> w[c] != -2
  }

  ghost function Unknown(list: seq<nat>, w: seq<int>): set<nat>
  {
    set c | c in list && c < |w| && w[c] < 0
  }

  ghost function TallySet(g: Graph, list: seq<nat>, w: seq<int>): set<nat>
    requires g.Valid() && |w| == |g.parents|
  {
    set c | c in list && c < |w| && w[c] >= 0 && Tallied(g, c)
  }

  /** The commits that the counter has counted once the merges are done. */
  ghost function Early(g: Graph, list: seq<nat>): set<nat>
    requires g.Valid()
  {
    set c | c in list && c < |g.parents| && Tallied(g, c) && |ParentsOf(g, c)| != 1
  }

  /** The commits with one interesting parent are not known yet. */
  ghost predicate SinglesOpen(g: Graph, list: seq<nat>, w: seq<int>)
    requires g.Valid() && |w| == |g.parents|
  {
    forall c :: c in list && c < |w| && |ParentsOf(g, c)| == 1 ==> w[c] == -1
  }

  lemma EarlyTally(g: Graph, list: seq<nat>, w: seq<int>)
    requires g.Valid() && Right(g, list, w) && NoMergeLeft(list, w) && SinglesOpen(g, list, w)
    ensures TallySet(g, list, w) == Early(g, list)
  {
    hide Weight, ParentsOf, Tallied;
  }

  ghost function SameMerges(g: Graph, list: seq<nat>): set<nat>
    requires g.Valid()
  {
    set c | c in list && c < |g.parents| && g.treesame[c] && |ParentsOf(g, c)| >= 2
  }

  /** A counter that reached nr leaves no more tree-changing commits unknown than it counted TREESAME merges. */
  lemma MissedAtMost(g: Graph, list: seq<nat>, w: seq<int>)
    requires g.Valid() && Right(g, list, w) && Closed(g, list) && Distinct(list)
    requires |TallySet(g, list, w)| >= CountChanging(g, list)
    ensures |Changing(g, Unknown(list, w))| <= |SameMerges(g, list)|
  {
    hide Weight, ParentsOf;
    CountIsSize(g, list);
    var all, missed := Changing(g, Members(list)), Changing(g, Unknown(list, w));
    assert missed <= all;
    var seen := TallySet(g, list, w);
    assert seen <= (all - missed) + SameMerges(g, list);
    SubsetSize(seen, (all - missed) + SameMerges(g, list));
    assert |(all - missed) + SameMerges(g, list)| <= |all - missed| + |SameMerges(g, list)|;
    assert |all - missed| == |all| - |missed|;
  }

  /** Giving an unknown commit its weight. */
  lemma Filled(g: Graph, list: seq<nat>, w: seq<int>, c: nat)
    requires g.Valid() && Right(g, list, w) && c in list && c < |w| && w[c] < 0
    ensures Right(g, list, w[c := Weight(g, c)])
    ensures Unknown(list, w[c := Weight(g, c)]) < Unknown(list, w)
    ensures |TallySet(g, list, w[c := Weight(g, c)])| == |TallySet(g, list, w)| + if Tallied(g, c) then 1 else 0
  {
    hide Weight, Tallied, ParentsOf;
    var v := w[c := Weight(g, c)];
    assert c in Unknown(list, w) && c !in Unknown(list, v);
    assert TallySet(g, list, v) == TallySet(g, list, w) + if Tallied(g, c) then {c} else {};
  }

  /** As long as the counter is behind, a tree-changing commit is unknown. */
  lemma Behind(g: Graph, list: seq<nat>, w: seq<int>) returns (c: nat)
    requires g.Valid() && Right(g, list, w) && Closed(g, list) && Distinct(list)
    requires |TallySet(g, list, w)| < CountChanging(g, list)
    ensures c in list && c < |w| && w[c] < 0
  {
    CountIsSize(g, list);
    var all := Changing(g, Members(list));
    if all <= TallySet(g, list, w) { SubsetSize(all, TallySet(g, list, w)); }
    c :| c in all && c !in TallySet(g, list, w);
  }

  lemma {:induction false} SubsetSize(a: set<nat>, b: set<nat>)
    requires a <= b
    ensures |a| <= |b|
  {
    assert b == a + (b - a);
  }

  lemma SubsetFull(a: set<nat>, b: set<nat>)
    requires a <= b && |a| >= |b|
    ensures a == b
  {
    assert b == a + (b - a);
  }

  /** Among the unknown commits one has its only interesting parent known. */
  lemma {:induction false} Lowest(g: Graph, list: seq<nat>, w: seq<int>, c: nat) returns (m: nat, q: nat)
    requires g.Valid() && Right(g, list, w) && Closed(g, list) && NoMergeLeft(list, w)
    requires c in list && c < |w| && w[c] < 0
    ensures m in list && m < |w| && w[m] < 0
    ensures ParentsOf(g, m) == [q] && q < |w| && w[q] >= 0
    decreases g.rank[c]
  {
    hide Weight, ParentsOf;
    var p := ParentsOf(g, c)[0];
    assert ParentsOf(g, c) == [p] && p in ParentsOf(g, c);
    var k :| 0 <= k < |g.parents[c]| && g.parents[c][k] == p;
    if w[p] >= 0 {
      m, q := c, p;
    } else {
      m, q := Lowest(g, list, w, p);
    }
  }

  lemma RightAt(g: Graph, list: seq<nat>, w: seq<int>, c: nat)
    requires g.Valid() && Right(g, list, w) && c in list && c < |w| && w[c] >= 0
    ensures w[c] == Weight(g, c)
  {
  }

  lemma ListInGraph(g: Graph, list: seq<nat>)
    requires g.Valid() && Closed(g, list)
    ensures |g.treesame| == |g.parents| && forall d :: d in list ==> d < |g.parents|
    ensures forall i :: 0 <= i < |list| ==> list[i] < |g.treesame|
  {
  }

  /** An interesting parent of a commit on the list is on the list. */
  lemma OnList(g: Graph, list: seq<nat>, c: nat, q: nat)
    requires g.Valid() && Closed(g, list) && c in list && c < |g.parents| && q in ParentsOf(g, c)
    ensures q in list && q < |g.parents|
  {
    var k :| 0 <= k < |g.parents[c]| && g.parents[c][k] == q;
  }

  /** Giving an unknown commit its weight from the one parent whose weight is known. */
  lemma FilledAbove(g: Graph, list: seq<nat>, w: seq<int>, c: nat, q: nat)
    requires g.Valid() && Right(g, list, w) && Closed(g, list) && NoMergeLeft(list, w)
    requires c in list && c < |w| && w[c] < 0 && q in ParentsOf(g, c) && q < |w| && w[q] >= 0
    ensures var v := w[c := w[q] + if g.treesame[c] then 0 else 1];
      && Right(g, list, v) && NoMergeLeft(list, v) && Unknown(list, v) < Unknown(list, w)
      && |TallySet(g, list, v)| == |TallySet(g, list, w)| + if g.treesame[c] then 0 else 1
  {
    hide Weight, ParentsOf, Unknown, TallySet;
    assert ParentsOf(g, c) == [q];
    WeightAbove(g, c, q);
    OnList(g, list, c, q);
    Filled(g, list, w, c);
  }

  // ---------------------------------------------------------------------------------------------
  // Distances

  function Distance(w: int, nr: int): int {
    if nr - w < w then nr - w else w
  }

  function Abs(x: int): nat { if x < 0 then -x else x }

  /** A commit has the larger distance if the numbers of commits on its two sides differ by less. */
  lemma DistanceIs(w: int, nr: int)
    ensures 2 * Distance(w, nr) == nr - Abs(w - (nr - w))
  {
  }

  lemma MoreEven(v: int, w: int, nr: int)
    ensures Distance(v, nr) <= Distance(w, nr) <==> Abs(2 * w - nr) <= Abs(2 * v - nr)
    ensures 0 <= v <= nr ==> 0 <= Distance(v, nr)
    ensures 0 <= Distance(v, nr) ==> 0 <= v
  {
  }

  /** halfway */
  predicate Halfway(g: Graph, c: nat, w: int, nr: int)
    requires c < |g.treesame|
  {
    !g.treesame[c] && -1 <= 2 * w - nr <= 1
  }

  /**
   No tree-changing commit of the list splits it more evenly than c: if c has w of the nr commits on its side and
   nr - w on the other, then |w - (nr - w)| is least.
   */
  ghost predicate Optimal(g: Graph, list: seq<nat>, c: nat, nr: nat)
    requires g.Valid() && Closed(g, list)
  {
    && c in list && !g.treesame[c]
    && forall d :: d in list && !g.treesame[d] ==> Abs(2 * Weight(g, c) - nr) <= Abs(2 * Weight(g, d) - nr)
  }

  lemma HalfwayIsOptimal(g: Graph, list: seq<nat>, c: nat, nr: nat)
    requires g.Valid() && Closed(g, list) && c in list && Halfway(g, c, Weight(g, c), nr)
    ensures Optimal(g, list, c, nr)
  {
    hide Weight;
  }

  /** c splits best among the tree-changing commits whose weight is known. */
  ghost predicate BestKnown(g: Graph, list: seq<nat>, w: seq<int>, c: nat, nr: nat)
    requires g.Valid() && Closed(g, list) && |w| == |g.parents|
  {
    && c in list
    && forall d :: d in list && !g.treesame[d] && w[d] >= 0 ==>
         && !g.treesame[c] && w[c] >= 0
         && Abs(2 * Weight(g, c) - nr) <= Abs(2 * Weight(g, d) - nr)
  }

  ghost predicate AllKnown(g: Graph, list: seq<nat>, w: seq<int>)
    requires g.Valid() && Closed(g, list) && |w| == |g.parents|
  {
    forall d :: d in list && !g.treesame[d] ==> w[d] >= 0
  }

  /** A counter that reached nr leaves no tree-changing commit unknown, unless merges were tallied in their place. */
  lemma EnoughKnown(g: Graph, list: seq<nat>, w: seq<int>)
    requires g.Valid() && Right(g, list, w) && Closed(g, list) && Distinct(list) && NoSameMerge(g, list)
    requires |TallySet(g, list, w)| >= CountChanging(g, list)
    ensures AllKnown(g, list, w)
  {
    hide Weight, ParentsOf;
    CountIsSize(g, list);
    var all := Changing(g, Members(list));
    assert TallySet(g, list, w) <= all;
    SubsetFull(TallySet(g, list, w), all);
    forall d | d in list && !g.treesame[d] ensures w[d] >= 0 { assert d in all; }
  }

  /** No weight exceeds the number of tree-changing commits on the list. */
  lemma WeightAtMost(g: Graph, list: seq<nat>, c: nat)
    requires g.Valid() && Closed(g, list) && Distinct(list) && c in list
    ensures Weight(g, c) <= CountChanging(g, list)
  {
    hide Reach, ReachAll;
    ClosedHasReach(g, Members(list), c);
    CountIsSize(g, list);
    SubsetSize(Changing(g, Reach(g, c)), Changing(g, Members(list)));
  }

  lemma SomeChanging(g: Graph, list: seq<nat>)
    requires forall i :: 0 <= i < |list| ==> list[i] < |g.treesame|
    requires CountChanging(g, list) > 0
    ensures exists d :: d in list && d < |g.treesame| && !g.treesame[d]
  {
    if g.treesame[list[0]] { SomeChanging(g, list[1..]); } else { assert list[0] in list; }
  }

  // ---------------------------------------------------------------------------------------------
  // All commits by distance

  datatype CommitDist = CommitDist(commit: nat, distance: int)

  function At(w: seq<int>, nr: int, c: nat): CommitDist
    requires c < |w|
  {
    CommitDist(c, Distance(w[c], nr))
  }

  /** compare_commit_dist: larger distances first, then by object name. */
  predicate Before(a: CommitDist, b: CommitDist, oid: nat -> int) {
    a.distance > b.distance || (a.distance == b.distance && oid(a.commit) <= oid(b.commit))
  }

  function Insert(a: CommitDist, s: seq<CommitDist>, oid: nat -> int): seq<CommitDist> {
    if s == [] then [a] else
    if Before(a, s[0], oid) then [a] + s else [s[0]] + Insert(a, s[1..], oid)
  }

  /** Stands for QSORT with compare_commit_dist. */
  function Sort(s: seq<CommitDist>, oid: nat -> int): seq<CommitDist> {
    if s == [] then [] else Insert(s[0], Sort(s[1..], oid), oid)
  }

  ghost predicate Ordered(s: seq<CommitDist>, oid: nat -> int) {
    s == [] || ((forall x :: x in s[1..] ==> Before(s[0], x, oid)) && Ordered(s[1..], oid))
  }

  lemma {:induction false} OrderedAt(s: seq<CommitDist>, oid: nat -> int, i: nat, j: nat)
    requires Ordered(s, oid) && i < j < |s|
    ensures Before(s[i], s[j], oid)
  {
    if i > 0 { OrderedAt(s[1..], oid, i - 1, j - 1); } else { assert s[1..][j - 1] in s[1..]; }
  }

  lemma {:induction false} InsertOrders(a: CommitDist, s: seq<CommitDist>, oid: nat -> int)
    requires Ordered(s, oid)
    ensures Ordered(Insert(a, s, oid), oid) && multiset(Insert(a, s, oid)) == multiset([a] + s)
    ensures forall x :: x in Insert(a, s, oid) <==> x == a || x in s
  {
    if s == [] || Before(a, s[0], oid) {
      assert ([a] + s)[1..] == s;
      if s != [] {
        assert s == [s[0]] + s[1..];
        forall x | x in s ensures Before(a, x, oid) { assert x == s[0] || x in s[1..]; }
      }
    } else {
      InsertOrders(a, s[1..], oid);
      assert s == [s[0]] + s[1..];
      assert Insert(a, s, oid)[1..] == Insert(a, s[1..], oid);
    }
  }

  lemma {:induction false} SortSorts(s: seq<CommitDist>, oid: nat -> int)
    ensures Ordered(Sort(s, oid), oid) && multiset(Sort(s, oid)) == multiset(s)
  {
    if s != [] {
      SortSorts(s[1..], oid);
      InsertOrders(s[0], Sort(s[1..], oid), oid);
      assert s == [s[0]] + s[1..];
    }
  }

  function Commits(s: seq<CommitDist>): (r: seq<nat>)
    ensures |r| == |s| && forall k :: 0 <= k < |s| ==> r[k] == s[k].commit
  {
    if s == [] then [] else [s[0].commit] + Commits(s[1..])
  }

  lemma CommitsAppend(s: seq<CommitDist>, a: CommitDist)
    ensures Commits(s + [a]) == Commits(s) + [a.commit]
  {
  }

  lemma {:induction false} InsertCommits(a: CommitDist, s: seq<CommitDist>, oid: nat -> int)
    ensures |Insert(a, s, oid)| == |s| + 1
    ensures multiset(Commits(Insert(a, s, oid))) == multiset{a.commit} + multiset(Commits(s))
  {
    if s == [] || Before(a, s[0], oid) {
      assert ([a] + s)[1..] == s;
    } else {
      InsertCommits(a, s[1..], oid);
      assert Insert(a, s, oid)[1..] == Insert(a, s[1..], oid);
    }
  }

  lemma {:induction false} SortCommits(s: seq<CommitDist>, oid: nat -> int)
    ensures |Sort(s, oid)| == |s| && multiset(Commits(Sort(s, oid))) == multiset(Commits(s))
  {
    if s != [] {
      SortCommits(s[1..], oid);
      InsertCommits(s[0], Sort(s[1..], oid), oid);
    }
  }

  lemma SameMembers(a: seq<CommitDist>, b: seq<CommitDist>, x: CommitDist)
    requires multiset(a) == multiset(b) && x in a
    ensures x in b
  {
    assert x in multiset(a);
  }

  /** The tree-changing commits of a list, in its order. */
  function TreeChanging(g: Graph, list: seq<nat>): (r: seq<nat>)
    requires forall i :: 0 <= i < |list| ==> list[i] < |g.treesame|
  {
    if list == [] then [] else
    (if g.treesame[list[0]] then [] else [list[0]]) + TreeChanging(g, list[1..])
  }

  lemma TreeChangingNil(g: Graph)
    ensures TreeChanging(g, []) == [] && Commits([]) == []
  {
  }

  lemma TreeChangingStep(g: Graph, list: seq<nat>, p: nat)
    requires p < |list| && forall i :: 0 <= i < |list| ==> list[i] < |g.treesame|
    ensures TreeChanging(g, list[p..])
      == (if g.treesame[list[p]] then [] else [list[p]]) + TreeChanging(g, list[p + 1..])
  {
    assert list[p..][1..] == list[p + 1..];
  }

  lemma {:induction false} TreeChangingSize(g: Graph, list: seq<nat>)
    requires forall i :: 0 <= i < |list| ==> list[i] < |g.treesame|
    ensures |TreeChanging(g, list)| == CountChanging(g, list) <= |list|
  {
    if list != [] { TreeChangingSize(g, list[1..]); }
  }

  lemma {:induction false} TreeChangingIn(g: Graph, list: seq<nat>, c: nat)
    requires (forall i :: 0 <= i < |list| ==> list[i] < |g.treesame|) && c in TreeChanging(g, list)
    ensures c in list
  {
    if c !in [list[0]] { TreeChangingIn(g, list[1..], c); }
  }

  // ---------------------------------------------------------------------------------------------
  // The reversed list of interesting commits

  function Kept(g: Graph, list: seq<nat>): (r: seq<nat>)
    requires forall i :: 0 <= i < |list| ==> list[i] < |g.uninteresting|
    ensures forall c :: c in r <==> c in list && c < |g.uninteresting| && !g.uninteresting[c]
    ensures forall i :: 0 <= i < |r| ==> r[i] < |g.uninteresting|
  {
    if list == [] then [] else
    var n := |list| - 1;
    (if g.uninteresting[list[n]] then [] else [list[n]]) + Kept(g, list[..n])
  }

  /** The interesting commits, the last one first. */
  lemma {:induction false} KeptConcat(g: Graph, a: seq<nat>, b: seq<nat>)
    requires forall i :: 0 <= i < |a| ==> a[i] < |g.uninteresting|
    requires forall i :: 0 <= i < |b| ==> b[i] < |g.uninteresting|
    ensures Kept(g, a + b) == Kept(g, b) + Kept(g, a)
    decreases |b|
  {
    hide Kept;
    if b == [] {
      KeptNil(g);
      assert a + b == a && [] + Kept(g, a) == Kept(g, a);
    } else {
      var n := |b| - 1;
      KeptStep(g, b, n);
      KeptStep(g, a + b, |a| + n);
      assert b[..n + 1] == b && (a + b)[..|a| + n + 1] == a + b && (a + b)[..|a| + n] == a + b[..n];
      KeptConcat(g, a, b[..n]);
      var one := if g.uninteresting[b[n]] then [] else [b[n]];
      assert one + (Kept(g, b[..n]) + Kept(g, a)) == (one + Kept(g, b[..n])) + Kept(g, a);
    }
  }

  lemma KeptStep(g: Graph, list: seq<nat>, p: nat)
    requires (forall i :: 0 <= i < |list| ==> list[i] < |g.uninteresting|) && p < |list|
    ensures Kept(g, list[..0]) == []
    ensures Kept(g, list[..p + 1]) == (if g.uninteresting[list[p]] then [] else [list[p]]) + Kept(g, list[..p])
  {
    assert list[..p + 1][..p] == list[..p];
  }

  lemma KeptNil(g: Graph)
    ensures Kept(g, []) == []
  {
  }

  lemma CountNil(g: Graph)
    ensures CountChanging(g, []) == 0
  {
  }

  lemma CountStep(g: Graph, c: nat, list: seq<nat>)
    requires (forall i :: 0 <= i < |list| ==> list[i] < |g.treesame|) && c < |g.treesame|
    ensures CountChanging(g, [c] + list) == CountChanging(g, list) + if g.treesame[c] then 0 else 1
  {
    assert ([c] + list)[1..] == list;
  }

  lemma DistinctCons(c: nat, list: seq<nat>)
    requires Distinct(list) && c !in list
    ensures Distinct([c] + list)
  {
  }

  lemma {:induction false} KeptDistinct(g: Graph, list: seq<nat>)
    requires (forall i :: 0 <= i < |list| ==> list[i] < |g.uninteresting|) && Distinct(list)
    ensures Distinct(Kept(g, list)) && |Kept(g, list)| <= |list|
  {
    hide Kept;
    if list == [] {
      KeptNil(g);
    } else {
      var n := |list| - 1;
      KeptDistinct(g, list[..n]);
      KeptStep(g, list, n);
      assert list[..n + 1] == list && list[n] !in list[..n];
      if !g.uninteresting[list[n]] { DistinctCons(list[n], Kept(g, list[..n])); }
    }
  }

  lemma KeptIsClosed(g: Graph, list: seq<nat>)
    requires g.Valid() && (forall i :: 0 <= i < |list| ==> list[i] < |g.parents|) && Distinct(list)
    requires forall c, i :: c in list && c < |g.parents| && !g.uninteresting[c] && 0 <= i < |g.parents[c]| ==>
      g.uninteresting[g.parents[c][i]] || g.parents[c][i] in list
    ensures Closed(g, Kept(g, list)) && Distinct(Kept(g, list))
  {
    hide Kept;
    KeptDistinct(g, list);
    forall i | 0 <= i < |Kept(g, list)| ensures Kept(g, list)[i] < |g.parents| && !g.uninteresting[Kept(g, list)[i]] {
      assert Kept(g, list)[i] in Kept(g, list);
    }
  }

  // ---------------------------------------------------------------------------------------------
  // count_distance

  class Bisection {
    const g: Graph
    const oid: nat -> int
    var counted: set<nat>
    var weights: seq<int>

    constructor (g: Graph, oid: nat -> int)
      requires g.Valid()
      ensures Valid() && this.g == g && this.oid == oid && counted == {}
    {
      this.g, this.oid := g, oid;
      counted := {};
      weights := seq(|g.parents|, _ => 0);
    }

    ghost predicate Valid()
      reads this
    {
      g.Valid() && |weights| == |g.parents| && forall x :: x in counted ==> x < |g.parents|
    }

    ghost function Unmarked(): nat
      reads this
    {
      |set x: nat | x < |g.parents| && x !in counted|
    }

    /** Every interesting parent of the commits in s carries the flag, but possibly next. */
    ghost predicate ParentsCounted(s: set<nat>, next: Option<nat>)
      requires g.Valid()
      reads this
    {
      forall x, i :: x in s && x < |g.parents| && 0 <= i < |g.parents[x]| ==>
        g.uninteresting[g.parents[x][i]] || g.parents[x][i] in counted || next == Some(g.parents[x][i])
    }

    /**
     count_distance: flags everything reachable from entry that is not flagged yet, and counts the
     tree-changing commits among it.  It follows first parents in a loop and recurses for the others.
     */
    method CountDistance(entry: nat) returns (nr: nat)
      requires Valid() && entry < |g.parents|
      modifies this`counted
      ensures Valid() && old(counted) <= counted
      ensures counted - old(counted) <= Reach(g, entry)
      ensures g.uninteresting[entry] || entry in counted
      ensures ParentsCounted(counted - old(counted), None)
      ensures nr == |Changing(g, counted - old(counted))|
      ensures Unmarked() <= old(Unmarked())
      decreases Unmarked()
    {
      hide Reach, ReachAll, Changing;
      nr := 0;
      var cur: Option<nat> := Some(entry);
      ghost var start := counted;
      NoneChanging(g);
      assert counted - start == {};
      while cur.Some?
        invariant Valid() && start <= counted && Unmarked() <= old(Unmarked())
        invariant cur.Some? ==> cur.value < |g.parents| && Reach(g, cur.value) <= Reach(g, entry)
        invariant counted - start <= Reach(g, entry)
        invariant g.uninteresting[entry] || entry in counted || cur == Some(entry)
        invariant ParentsCounted(counted - start, cur)
        invariant nr == |Changing(g, counted - start)|
        decreases Unmarked(), if cur.Some? then 1 else 0
      {
        var commit := cur.value;
        if g.uninteresting[commit] || commit in counted {
          cur := None;
          break;
        }
        ghost var left := Unmarked();
        ghost var before := counted;
        Shrinks(commit);
        if !g.treesame[commit] { nr := nr + 1; }
        counted := counted + {commit};
        ChangingOne(g, commit);
        ChangingSplit(g, before - start, {commit});
        assert counted - start == (before - start) + {commit};
        ReachSelf(g, commit);
        var ps := g.parents[commit];
        cur := if ps == [] then None else Some(ps[0]);
        var j := 1;
        while j < |ps|
          invariant 1 <= j && Valid() && before + {commit} <= counted && Unmarked() < left
          invariant counted - start <= Reach(g, entry)
          invariant ParentsCounted(counted - start - {commit}, Some(commit))
          invariant forall i :: 1 <= i < j && i < |ps| ==> g.uninteresting[ps[i]] || ps[i] in counted
          invariant nr == |Changing(g, counted - start)|
        {
          ghost var mid := counted;
          ReachParent(g, commit, j);
          var n := CountDistance(ps[j]);
          ChangingSplit(g, mid - start, counted - mid);
          assert counted - start == (mid - start) + (counted - mid);
          nr := nr + n;
          j := j + 1;
        }
        if ps != [] { ReachParent(g, commit, 0); }
      }
    }

    /** clear_distance: takes the flag off every commit of the list. */
    method ClearDistance(list: seq<nat>)
      requires Valid()
      modifies this`counted
      ensures Valid() && counted == old(counted) - Members(list)
    {
      var i := 0;
      while i < |list|
        invariant 0 <= i <= |list| && Valid()
        invariant counted == old(counted) - Members(list[..i])
      {
        assert Members(list[..i + 1]) == Members(list[..i]) + {list[i]};
        counted := counted - {list[i]};
        i := i + 1;
      }
      assert list[..i] == list;
    }

    /** The exhaustive count of one merge, with the flags put back. */
    method CountMerge(c: nat, list: seq<nat>) returns (nr: nat)
      requires Valid() && counted == {} && c in list && Closed(g, list)
      modifies this`counted
      ensures Valid() && counted == {} && nr == Weight(g, c)
    {
      hide Reach, ReachAll, Changing;
      nr := CountDistance(c);
      assert counted - {} == counted;
      ClosedHasReach(g, counted, c);
      ClosedHasReach(g, Members(list), c);
      assert counted == Reach(g, c);
      ClearDistance(list);
    }

    // -------------------------------------------------------------------------------------------
    // do_find_bisection

    /** First round: commits without interesting parents are done, the others get a marker. */
    method InitWeights(list: seq<nat>) returns (done: nat)
      requires Valid() && Closed(g, list) && Distinct(list)
      requires forall c :: c in list && c < |weights| ==> weights[c] == 0
      modifies this`weights
      ensures Valid() && Right(g, list, weights) && done == |TallySet(g, list, weights)|
      ensures SinglesOpen(g, list, weights)
    {
      hide Weight, ParentsOf;
      done := 0;
      var n := 0;
      assert TallySet(g, list[..0], weights) == {};
      while n < |list|
        invariant 0 <= n <= |list| && |weights| == |g.parents|
        invariant Right(g, list[..n], weights)
        invariant forall k :: n <= k < |list| ==> weights[list[k]] == 0
        invariant done == |TallySet(g, list[..n], weights)| && SinglesOpen(g, list[..n], weights)
      {
        var c := list[n];
        ghost var was := weights;
        var count := CountInterestingParents(g, c);
        if count == 0 {
          WeightAlone(g, c);
          if !g.treesame[c] {
            weights := weights[c := 1];
            done := done + 1;
          }
        } else if count == 1 {
          weights := weights[c := -1];
        } else {
          weights := weights[c := -2];
        }
        Started(list, n, was);
        n := n + 1;
      }
      assert list[..n] == list;
    }

    /** What one step of the first round adds. */
    lemma Started(list: seq<nat>, n: nat, was: seq<int>)
      requires Valid() && Closed(g, list) && Distinct(list) && n < |list| && |was| == |g.parents|
      requires Right(g, list[..n], was) && was[list[n]] == 0
      requires weights == was[list[n] := weights[list[n]]]
      requires weights[list[n]] == if |ParentsOf(g, list[n])| == 0 then Weight(g, list[n]) else
        if |ParentsOf(g, list[n])| == 1 then -1 else -2
      requires |ParentsOf(g, list[n])| == 0 ==> Weight(g, list[n]) == if g.treesame[list[n]] then 0 else 1
      ensures Right(g, list[..n + 1], weights)
      ensures |TallySet(g, list[..n + 1], weights)| == |TallySet(g, list[..n], was)| +
        if weights[list[n]] == 1 then 1 else 0
      ensures SinglesOpen(g, list[..n], was) ==> SinglesOpen(g, list[..n + 1], weights)
    {
      hide Weight, ParentsOf, Right, TallySet, Closed;
      var c := list[n];
      assert list[..n + 1] == list[..n] + [c] && c !in list[..n];
      InGraph(g, list, n);
      StartedRight(g, list[..n], c, was, weights[c]);
      StartedTally(g, list[..n], c, was, weights[c]);
    }

    /** Second round: the merges, counted exhaustively; stops at one that is halfway. */
    method CountMerges(list: seq<nat>, nr: nat, findAll: bool, already: nat) returns (done: nat, found: Option<nat>)
      requires Valid() && Closed(g, list) && Right(g, list, weights)
      requires counted == {} && already == |TallySet(g, list, weights)| && SinglesOpen(g, list, weights)
      modifies this
      ensures Valid() && Right(g, list, weights) && counted == {} && SinglesOpen(g, list, weights)
      ensures found.None? ==> NoMergeLeft(list, weights) && done == |TallySet(g, list, weights)|
      ensures found.Some? ==> !findAll && found.value < |list|
      ensures found.Some? ==> Halfway(g, list[found.value], weights[list[found.value]], nr)
      ensures found.Some? ==> weights[list[found.value]] >= 0
    {
      hide Weight, ParentsOf;
      done, found := already, None;
      var i := 0;
      while i < |list|
        invariant 0 <= i <= |list| && Valid() && Right(g, list, weights) && counted == {}
        invariant NoMergeLeft(list[..i], weights) && done == |TallySet(g, list, weights)|
        invariant SinglesOpen(g, list, weights)
      {
        var c := list[i];
        if weights[c] == -2 {
          var nrHere := CountMerge(c, list);
          Filled(g, list, weights, c);
          weights := weights[c := nrHere];
          if !findAll && Halfway(g, c, weights[c], nr) {
            found := Some(i);
            return;
          }
          done := done + 1;
        }
        i := i + 1;
      }
      assert list[..i] == list;
    }

    /** The first interesting parent whose weight is known. */
    method KnownParent(c: nat) returns (q: Option<nat>)
      requires Valid() && c < |g.parents|
      ensures q.Some? ==> q.value in ParentsOf(g, c) && q.value < |weights| && weights[q.value] >= 0
      ensures q.None? ==> forall p :: p in ParentsOf(g, c) ==> weights[p] < 0
    {
      var ps := g.parents[c];
      var i := 0;
      while i < |ps|
        invariant 0 <= i <= |ps|
        invariant forall k :: 0 <= k < i && !g.uninteresting[ps[k]] ==> weights[ps[k]] < 0
      {
        if !g.uninteresting[ps[i]] && 0 <= weights[ps[i]] {
          return Some(ps[i]);
        }
        i := i + 1;
      }
      return None;
    }

    /** One pass of the third round: fills what has its parent filled; stops at a commit that is halfway. */
    method FillPass(list: seq<nat>, nr: nat, findAll: bool, already: nat) returns (done: nat, found: Option<nat>)
      requires Valid() && Closed(g, list) && Distinct(list) && Right(g, list, weights) && NoMergeLeft(list, weights)
      requires already == |TallySet(g, list, weights)| && already < nr == CountChanging(g, list)
      modifies this`weights
      ensures Valid() && Right(g, list, weights) && NoMergeLeft(list, weights)
      ensures found.None? ==> done == |TallySet(g, list, weights)|
      ensures found.None? ==> Unknown(list, weights) < old(Unknown(list, weights))
      ensures found.Some? ==> !findAll && found.value < |list|
      ensures found.Some? ==> Halfway(g, list[found.value], weights[list[found.value]], nr)
      ensures found.Some? ==> weights[list[found.value]] >= 0
    {
      hide Weight, ParentsOf, CountChanging, Right, NoMergeLeft, TallySet;
      ghost var some := Behind(g, list, weights);
      ghost var m, above := Lowest(g, list, weights, some);
      done, found := already, None;
      var i := 0;
      while i < |list|
        invariant 0 <= i <= |list| && Valid() && Right(g, list, weights) && NoMergeLeft(list, weights)
        invariant done == |TallySet(g, list, weights)|
        invariant Unknown(list, weights) <= old(Unknown(list, weights))
        invariant m in list[..i] ==> weights[m] >= 0
        invariant weights[above] >= 0
      {
        var c := list[i];
        assert list[..i + 1] == list[..i] + [c];
        if weights[c] < 0 {
          var q := KnownParent(c);
          if q.Some? {
            FilledAbove(g, list, weights, c, q.value);
            if !g.treesame[c] {
              weights := weights[c := weights[q.value] + 1];
              done := done + 1;
            } else {
              weights := weights[c := weights[q.value]];
            }
            if !findAll && Halfway(g, c, weights[c], nr) {
              found := Some(i);
              return;
            }
          }
        }
        i := i + 1;
      }
      assert list[..i] == list;
      assert m in old(Unknown(list, weights)) && m !in Unknown(list, weights);
    }

    /** Third round: passes until the counter has reached nr. */
    method FillBlanks(list: seq<nat>, nr: nat, findAll: bool, already: nat) returns (found: Option<nat>)
      requires Valid() && Closed(g, list) && Distinct(list) && Right(g, list, weights) && NoMergeLeft(list, weights)
      requires already == |TallySet(g, list, weights)| && nr == CountChanging(g, list)
      modifies this`weights
      ensures Valid() && Right(g, list, weights)
      ensures found.None? ==> |TallySet(g, list, weights)| >= nr
      ensures already >= nr ==> found.None? && weights == old(weights)
      ensures found.Some? ==> !findAll && found.value < |list|
      ensures found.Some? ==> Halfway(g, list[found.value], weights[list[found.value]], nr)
      ensures found.Some? ==> weights[list[found.value]] >= 0
    {
      hide Right, CountChanging, TallySet, NoMergeLeft;
      var done := already;
      found := None;
      while done < nr && found.None?
        invariant Valid() && Right(g, list, weights) && NoMergeLeft(list, weights)
        invariant found.None? ==> done == |TallySet(g, list, weights)|
        invariant already >= nr ==> done == already && found.None? && weights == old(weights)
        invariant found.Some? ==> !findAll && found.value < |list|
        invariant found.Some? ==> Halfway(g, list[found.value], weights[list[found.value]], nr)
        invariant found.Some? ==> weights[list[found.value]] >= 0
        decreases if found.None? then 1 else 0, Unknown(list, weights)
      {
        done, found := FillPass(list, nr, findAll, done);
      }
    }

    /** best_bisection: the position of the first tree-changing commit of largest distance. */
    method BestBisection(list: seq<nat>, nr: nat) returns (best: nat)
      requires Valid() && list != [] && forall i :: 0 <= i < |list| ==> list[i] < |weights|
      ensures best < |list|
      ensures forall i :: 0 <= i < |list| && !g.treesame[list[i]] && Distance(weights[list[i]], nr) >= 0 ==>
        !g.treesame[list[best]] && Distance(weights[list[i]], nr) <= Distance(weights[list[best]], nr)
      ensures forall i :: 0 <= i < best && !g.treesame[list[i]] ==>
        Distance(weights[list[i]], nr) < Distance(weights[list[best]], nr)
    {
      best := 0;
      var bestDistance := -1;
      var p := 0;
      while p < |list|
        invariant 0 <= p <= |list| && best < |list| && -1 <= bestDistance && best <= p
        invariant bestDistance >= 0 ==> !g.treesame[list[best]] && Distance(weights[list[best]], nr) == bestDistance
        invariant forall i :: 0 <= i < p && !g.treesame[list[i]] ==> Distance(weights[list[i]], nr) <= bestDistance
        invariant bestDistance == -1 ==> best == 0
        invariant forall i :: 0 <= i < best && !g.treesame[list[i]] ==> Distance(weights[list[i]], nr) < bestDistance
      {
        if !g.treesame[list[p]] {
          var distance := weights[list[p]];
          if nr - distance < distance { distance := nr - distance; }
          if distance > bestDistance {
            best, bestDistance := p, distance;
          }
        }
        p := p + 1;
      }
    }

    /** The first nr commits of a result: those that split more evenly first, and of equals the lesser name first. */
    ghost predicate Ranked(res: seq<nat>, nr: nat)
      requires nr <= |res|
      reads this
    {
      && (forall i :: 0 <= i < nr ==> res[i] < |weights|)
      && forall i, j :: 0 <= i < j < nr ==>
        var a, b := Abs(2 * weights[res[i]] - nr), Abs(2 * weights[res[j]] - nr);
        a < b || (a == b && oid(res[i]) <= oid(res[j]))
    }

    /** best_bisection_sorted: the tree-changing commits, best first, written over the front of the list. */
    method BestBisectionSorted(list: seq<nat>, nr: nat) returns (res: seq<nat>)
      requires Valid() && (forall i :: 0 <= i < |list| ==> list[i] < |weights|) && nr == CountChanging(g, list)
      ensures |res| == nr + if nr < |list| then 1 else 0
      ensures multiset(res[..nr]) == multiset(TreeChanging(g, list)) && Ranked(res, nr)
      ensures nr < |list| ==> res[nr] == list[nr]
    {
      hide TreeChanging, CountChanging, Sort, Before, Ranked, Commits;
      var arr := CollectDistances(list, nr);
      TreeChangingSize(g, list);
      var cnt := |arr|;
      ghost var were := arr;
      arr := Sort(arr, oid);
      Sorted(were, arr, nr);
      res := WriteBack(list, Commits(arr));
      if cnt < |res| {
        Leftover(list, res, cnt);
        res := res[..cnt + 1];
      }
      SameRanks(Commits(arr), res, nr);
    }

    /** The second loop of best_bisection_sorted, which puts the sorted commits into the front of the list. */
    method WriteBack(list: seq<nat>, commits: seq<nat>) returns (res: seq<nat>)
      requires |commits| <= |list|
      ensures |res| == |list| && res[..|commits|] == commits && res[|commits|..] == list[|commits|..]
    {
      res := list;
      var i := 0;
      while i < |commits|
        invariant 0 <= i <= |commits| && |res| == |list|
        invariant forall k :: 0 <= k < i ==> res[k] == commits[k]
        invariant forall k :: i <= k < |list| ==> res[k] == list[k]
      {
        res := res[i := commits[i]];
        i := i + 1;
      }
    }

    lemma Leftover(list: seq<nat>, res: seq<nat>, cnt: nat)
      requires cnt < |res| == |list| && res[cnt..] == list[cnt..]
      ensures res[..cnt + 1][..cnt] == res[..cnt] && res[..cnt + 1][cnt] == list[cnt]
    {
      assert res[cnt] == res[cnt..][0] == list[cnt..][0];
    }

    /** The first loop of best_bisection_sorted. */
    method CollectDistances(list: seq<nat>, nr: nat) returns (arr: seq<CommitDist>)
      requires Valid() && forall i :: 0 <= i < |list| ==> list[i] < |weights|
      ensures TreeChanging(g, list) == Commits(arr)
      ensures forall k :: 0 <= k < |arr| ==> arr[k].commit < |weights| && arr[k] == At(weights, nr, arr[k].commit)
    {
      hide TreeChanging, Commits;
      arr := [];
      var p := 0;
      TreeChangingNil(g);
      while p < |list|
        invariant 0 <= p <= |list|
        invariant TreeChanging(g, list) == Commits(arr) + TreeChanging(g, list[p..])
        invariant forall k :: 0 <= k < |arr| ==> arr[k].commit < |weights| && arr[k] == At(weights, nr, arr[k].commit)
      {
        TreeChangingStep(g, list, p);
        if !g.treesame[list[p]] {
          var distance := weights[list[p]];
          if nr - distance < distance { distance := nr - distance; }
          CommitsAppend(arr, CommitDist(list[p], distance));
          arr := arr + [CommitDist(list[p], distance)];
        }
        p := p + 1;
      }
    }

    lemma Sorted(were: seq<CommitDist>, arr: seq<CommitDist>, nr: nat)
      requires arr == Sort(were, oid)
      requires forall k :: 0 <= k < |were| ==> were[k].commit < |weights| && were[k] == At(weights, nr, were[k].commit)
      requires |were| == nr
      ensures |arr| == nr && multiset(Commits(arr)) == multiset(Commits(were)) && Ranked(Commits(arr), nr)
    {
      hide Before, Sort, At, Ordered, Commits;
      SortSorts(were, oid);
      SortCommits(were, oid);
      forall k | 0 <= k < nr ensures arr[k].commit < |weights| && arr[k] == At(weights, nr, arr[k].commit) {
        SameMembers(arr, were, arr[k]);
      }
      forall i, j | 0 <= i < j < nr
        ensures Before(At(weights, nr, Commits(arr)[i]), At(weights, nr, Commits(arr)[j]), oid)
      {
        assert arr[i] == At(weights, nr, Commits(arr)[i]) && arr[j] == At(weights, nr, Commits(arr)[j]);
        OrderedAt(arr, oid, i, j);
      }
      RankedByDistance(Commits(arr), nr);
    }

    lemma RankedByDistance(res: seq<nat>, nr: nat)
      requires nr <= |res| && forall i :: 0 <= i < nr ==> res[i] < |weights|
      requires forall i, j :: 0 <= i < j < nr ==> Before(At(weights, nr, res[i]), At(weights, nr, res[j]), oid)
      ensures Ranked(res, nr)
    {
      forall i | 0 <= i < nr ensures 2 * At(weights, nr, res[i]).distance == nr - Abs(2 * weights[res[i]] - nr) {
        DistanceIs(weights[res[i]], nr);
      }
    }

    lemma SameRanks(a: seq<nat>, b: seq<nat>, nr: nat)
      requires nr <= |a| && nr <= |b| && a[..nr] == b[..nr] && Ranked(a, nr)
      ensures Ranked(b, nr)
    {
      hide Before;
      assert forall i :: 0 <= i < nr ==> b[i] == b[..nr][i] == a[i];
    }

    /**
     do_find_bisection: the list from the chosen commit on.  Every weight it sets is the exhaustive count;
     the chosen commit splits best among the commits whose weight was set.  Without TREESAME merges on the list
     that are all tree-changing ones; with them, it may be none of those that have one interesting parent.
     */
    method DoFindBisection(list: seq<nat>, nr: nat, findAll: bool) returns (res: seq<nat>)
      requires Valid() && Closed(g, list) && Distinct(list) && counted == {} && nr == CountChanging(g, list)
      requires forall c :: c in list && c < |weights| ==> weights[c] == 0
      modifies this
      ensures Valid() && Right(g, list, weights) && counted == {}
      ensures !findAll && list != [] ==> res != [] && BestKnown(g, list, weights, res[0], nr)
      ensures !findAll && list == [] ==> res == []
      ensures !findAll ==> |res| <= |list| && res == list[|list| - |res|..]
      ensures NoSameMerge(g, list) && !findAll && nr > 0 ==>
        res != [] && Optimal(g, list, res[0], nr) && weights[res[0]] >= 0
      ensures NoSameMerge(g, list) && findAll ==> AllKnown(g, list, weights)
      ensures findAll ==> |Changing(g, Unknown(list, weights))| <= |SameMerges(g, list)|
      ensures |Early(g, list)| >= nr ==> SinglesOpen(g, list, weights)
      ensures findAll ==> |res| == nr + if nr < |list| then 1 else 0
      ensures findAll ==> multiset(res[..nr]) == multiset(TreeChanging(g, list)) && Ranked(res, nr)
      ensures findAll && nr < |list| ==> res[nr] == list[nr]
    {
      hide Right, NoMergeLeft, TallySet, TreeChanging, Halfway, BestKnown, Optimal, AllKnown, NoSameMerge, Ranked,
        Weight, Early, SinglesOpen, SameMerges, Unknown, Changing;
      var done := InitWeights(list);
      var found: Option<nat>;
      done, found := CountMerges(list, nr, findAll, done);
      if found.Some? {
        FoundHalfway(list, found.value, nr);
        return list[found.value..];
      }
      EarlyTally(g, list, weights);
      found := FillBlanks(list, nr, findAll, done);
      if found.Some? {
        FoundHalfway(list, found.value, nr);
        return list[found.value..];
      }
      if NoSameMerge(g, list) { EnoughKnown(g, list, weights); }
      MissedAtMost(g, list, weights);
      if !findAll {
        if list == [] { return []; }
        var best := BestBisection(list, nr);
        ChosenIsBest(list, nr, best);
        res := list[best..];
      } else {
        res := BestBisectionSorted(list, nr);
      }
    }

    lemma FoundHalfway(list: seq<nat>, k: nat, nr: nat)
      requires Valid() && Closed(g, list) && Right(g, list, weights) && k < |list| && weights[list[k]] >= 0
      requires Halfway(g, list[k], weights[list[k]], nr) && nr == CountChanging(g, list)
      ensures Optimal(g, list, list[k], nr) && BestKnown(g, list, weights, list[k], nr)
    {
      hide Weight, ParentsOf, CountChanging;
      HalfwayIsOptimal(g, list, list[k], nr);
    }

    lemma ChosenIsBest(list: seq<nat>, nr: nat, best: nat)
      requires Valid() && Closed(g, list) && Distinct(list) && Right(g, list, weights) && best < |list|
      requires nr == CountChanging(g, list)
      requires forall i :: 0 <= i < |list| && !g.treesame[list[i]] && Distance(weights[list[i]], nr) >= 0 ==>
        !g.treesame[list[best]] && Distance(weights[list[i]], nr) <= Distance(weights[list[best]], nr)
      ensures BestKnown(g, list, weights, list[best], nr)
      ensures AllKnown(g, list, weights) && nr > 0 ==> Optimal(g, list, list[best], nr) && weights[list[best]] >= 0
    {
      hide Weight, ParentsOf, CountChanging, Changing, Distance, Abs, Right, Closed, Distinct, Graph.Valid;
      ListInGraph(g, list);
      assert |weights| == |g.parents| && list[best] in list;
      forall d | d in list && !g.treesame[d] && weights[d] >= 0
        ensures !g.treesame[list[best]] && weights[list[best]] >= 0
        ensures Abs(2 * Weight(g, list[best]) - nr) <= Abs(2 * Weight(g, d) - nr)
      {
        ChosenOver(list, nr, best, d);
      }
      if nr > 0 { SomeChanging(g, list); }
    }

    lemma ChosenOver(list: seq<nat>, nr: nat, best: nat, d: nat)
      requires Valid() && Closed(g, list) && Distinct(list) && Right(g, list, weights) && best < |list|
      requires nr == CountChanging(g, list) && d in list && !g.treesame[d] && weights[d] >= 0
      requires forall i :: 0 <= i < |list| && !g.treesame[list[i]] && Distance(weights[list[i]], nr) >= 0 ==>
        !g.treesame[list[best]] && Distance(weights[list[i]], nr) <= Distance(weights[list[best]], nr)
      ensures !g.treesame[list[best]] && weights[list[best]] >= 0
      ensures Abs(2 * Weight(g, list[best]) - nr) <= Abs(2 * Weight(g, d) - nr)
    {
      hide Weight, ParentsOf, CountChanging, Changing, Distance, Abs, Right;
      var c := list[best];
      RightAt(g, list, weights, d);
      WeightAtMost(g, list, d);
      MoreEven(weights[d], weights[c], nr);
      MoreEven(weights[c], weights[c], nr);
      var i :| 0 <= i < |list| && list[i] == d;
      RightAt(g, list, weights, c);
    }

    /**
     find_bisection: keeps the interesting commits, in reverse, and returns the chosen commit with the
     number of tree-changing commits it reaches, or with findAll all of them, best first.
     */
    method FindBisection(list: seq<nat>, findAll: bool) returns (res: seq<nat>, reaches: Option<int>, all: nat)
      requires Valid() && counted == {} && Distinct(list)
      requires forall i :: 0 <= i < |list| ==> list[i] < |g.parents|
      requires forall c, i :: c in list && c < |g.parents| && !g.uninteresting[c] && 0 <= i < |g.parents[c]| ==>
        g.uninteresting[g.parents[c][i]] || g.parents[c][i] in list
      modifies this
      ensures Valid() && counted == {} && all == CountChanging(g, Kept(g, list))
      ensures Closed(g, Kept(g, list)) && Right(g, Kept(g, list), weights)
      ensures (res == []) == (Kept(g, list) == []) && (reaches == None) == (res == [])
      ensures res != [] ==> res[0] in Kept(g, list) && reaches == Some(weights[res[0]])
      ensures !findAll ==> |res| <= 1
      ensures !findAll && res != [] ==> BestKnown(g, Kept(g, list), weights, res[0], all)
      ensures NoSameMerge(g, Kept(g, list)) && !findAll && all > 0 ==>
        res != [] && Optimal(g, Kept(g, list), res[0], all) && reaches == Some(Weight(g, res[0]))
      ensures NoSameMerge(g, Kept(g, list)) && findAll ==> AllKnown(g, Kept(g, list), weights)
      ensures findAll ==> |res| == all + if all < |Kept(g, list)| then 1 else 0
      ensures findAll ==> multiset(res[..all]) == multiset(TreeChanging(g, Kept(g, list))) && Ranked(res, all)
      ensures findAll && all < |Kept(g, list)| ==> res[all] == Kept(g, list)[all]
    {
      hide Right, Weight, BestKnown, Optimal, AllKnown, NoSameMerge, Ranked, TreeChanging, Kept, CountChanging;
      var last: seq<nat> := [];
      var p := 0;
      all := 0;
      CountNil(g);
      while p < |list|
        invariant Valid() && counted == {}
        invariant 0 <= p <= |list| && (forall i :: 0 <= i < |last| ==> last[i] < |g.parents|)
        invariant (p == 0 ==> last == []) && (p > 0 ==> Kept(g, list[..p]) == last) && all == CountChanging(g, last)
      {
        KeptStep(g, list, p);
        if !g.uninteresting[list[p]] {
          CountStep(g, list[p], last);
          last := [list[p]] + last;
          if !g.treesame[list[p]] { all := all + 1; }
        }
        p := p + 1;
      }
      assert list[..p] == list;
      if list == [] { KeptNil(g); }
      KeptIsClosed(g, list);
      weights := seq(|g.parents|, _ => 0);
      res := DoFindBisection(last, all, findAll);
      reaches := None;
      if res != [] {
        ResultOnList(last, res, all, findAll);
        if !findAll { res := [res[0]]; }
        reaches := Some(weights[res[0]]);
        if weights[res[0]] >= 0 { RightAt(g, last, weights, res[0]); }
      }
    }

    lemma ResultOnList(list: seq<nat>, res: seq<nat>, nr: nat, findAll: bool)
      requires Valid() && Closed(g, list) && res != []
      requires !findAll && list != [] ==> BestKnown(g, list, weights, res[0], nr)
      requires !findAll && list == [] ==> res == []
      requires findAll ==> |res| == nr + if nr < |list| then 1 else 0
      requires findAll ==> multiset(res[..nr]) == multiset(TreeChanging(g, list))
      requires findAll && nr < |list| ==> res[nr] == list[nr]
      ensures res[0] in list && list != []
    {
      hide TreeChanging, Weight;
      if findAll {
        if nr > 0 {
          assert res[..nr][0] in multiset(res[..nr]);
          TreeChangingIn(g, list, res[0]);
        }
      }
    }

    /** Flagging a commit leaves fewer without a flag. */
    lemma Shrinks(c: nat)
      requires c < |g.parents| && c !in counted
      ensures |set x: nat | x < |g.parents| && x !in counted + {c}| < Unmarked()
    {
      var a := set x: nat | x < |g.parents| && x !in counted;
      var b := set x: nat | x < |g.parents| && x !in counted + {c};
      assert a == b + {c};
    }
  }

  /** A strand of four tree-changing commits, 0 to 3, and three TREESAME merges of the first two. */
  ghost function Misleading(): Graph
  {
    Graph([[], [0], [1], [2], [0, 1], [0, 1], [0, 1]], seq(7, _ => false),
          [false, false, false, false, true, true, true], [0, 1, 2, 3, 4, 5, 6])
  }

  /**
   A list for which the choice is not the best: the merges bring the counter to four before the strand is looked
   at, so that only the weight of the first commit is known, although the second one splits the list evenly.
   */
  method Misled(b: Bisection) returns (res: seq<nat>)
    requires b.g == Misleading() && b.Valid() && b.counted == {} && forall c :: 0 <= c < 7 ==> b.weights[c] == 0
    modifies b
    ensures res != [] && res[0] == 0
    ensures Closed(b.g, [0, 1, 2, 3, 4, 5, 6]) && !Optimal(b.g, [0, 1, 2, 3, 4, 5, 6], res[0], 4)
  {
    hide Weight, ParentsOf, Optimal, Early, SinglesOpen, Right, Changing, Unknown, BestKnown, CountChanging;
    var list: seq<nat> := [0, 1, 2, 3, 4, 5, 6];
    MisleadingList();
    res := b.DoFindBisection(list, 4, false);
    OnlyFirst(b.weights, res[0]);
  }

  /** The same list with all commits asked for: four of them change the tree, and a fifth one comes along. */
  method Superfluous(b: Bisection) returns (res: seq<nat>)
    requires b.g == Misleading() && b.Valid() && b.counted == {} && forall c :: 0 <= c < 7 ==> b.weights[c] == 0
    modifies b
    ensures |res| == 5 && res[4] == 4 && b.g.treesame[4]
  {
    hide Weight, ParentsOf, Early, SinglesOpen, Right, Changing, Unknown, CountChanging;
    MisleadingList();
    res := b.DoFindBisection([0, 1, 2, 3, 4, 5, 6], 4, true);
  }

  lemma MisleadingList()
    ensures var g, list := Misleading(), [0, 1, 2, 3, 4, 5, 6];
      && g.Valid() && Closed(g, list) && Distinct(list) && CountChanging(g, list) == 4 && |Early(g, list)| == 4
      && |ParentsOf(g, 0)| == 0 && (forall c :: 1 <= c <= 3 ==> |ParentsOf(g, c)| == 1)
      && Weight(g, 0) == 1 && Weight(g, 1) == 2
  {
    hide *;
    MisleadingClosed();
    MisleadingParents();
    MisleadingEarly();
    MisleadingCount();
    MisleadingIs();
    WeightAlone(Misleading(), 0);
    WeightAbove(Misleading(), 1, 0);
  }

  lemma MisleadingIs()
    ensures var g := Misleading();
      && g.Valid() && |g.parents| == |g.treesame| == |g.uninteresting| == 7
      && (forall c :: 0 <= c < 7 ==> !g.uninteresting[c] && (g.treesame[c] <==> c >= 4))
      && g.parents[0] == [] && (forall c :: 1 <= c <= 3 ==> g.parents[c] == [c - 1])
      && (forall c :: 4 <= c < 7 ==> g.parents[c] == [0, 1])
  {
    MisleadingParts();
    hide Misleading;
  }

  lemma MisleadingParts()
    ensures var g := Misleading();
      && |g.parents| == |g.treesame| == |g.uninteresting| == |g.rank| == 7
      && (forall c :: 0 <= c < 7 ==> !g.uninteresting[c] && g.rank[c] == c && (g.treesame[c] <==> c >= 4))
      && g.parents[0] == [] && (forall c :: 1 <= c <= 3 ==> g.parents[c] == [c - 1])
      && (forall c :: 4 <= c < 7 ==> g.parents[c] == [0, 1])
  {
  }

  lemma MisleadingClosed()
    ensures Misleading().Valid() && Closed(Misleading(), [0, 1, 2, 3, 4, 5, 6])
    ensures Distinct([0, 1, 2, 3, 4, 5, 6])
  {
    hide Misleading;
    MisleadingIs();
    var list := [0, 1, 2, 3, 4, 5, 6];
    forall c: nat | c < 7 ensures list[c] == c && c in list {}
  }

  lemma MisleadingParents()
    ensures var g := Misleading();
      && g.Valid() && |g.parents| == 7 && ParentsOf(g, 0) == []
      && (forall c :: 1 <= c <= 3 ==> ParentsOf(g, c) == [c - 1])
      && (forall c :: 4 <= c < 7 ==> ParentsOf(g, c) == [0, 1])
  {
    hide Misleading;
    MisleadingIs();
    var g := Misleading();
    forall a: nat | a < 7 ensures InterestingParents(g, [a]) == [a] { assert [a][1..] == []; }
    assert [0, 1][1..] == [1] && InterestingParents(g, [0, 1]) == [0] + InterestingParents(g, [1]);
  }

  lemma MisleadingEarly()
    ensures Misleading().Valid() && |Early(Misleading(), [0, 1, 2, 3, 4, 5, 6])| == 4
  {
    hide ParentsOf, Misleading;
    MisleadingIs();
    MisleadingParents();
    var g, list := Misleading(), [0, 1, 2, 3, 4, 5, 6];
    forall c: nat | c < 7 ensures c in list { assert list[c] == c; }
    assert Early(g, list) == {0, 4, 5, 6};
  }

  lemma CountAt(g: Graph, list: seq<nat>, i: nat)
    requires (forall k :: 0 <= k < |list| ==> list[k] < |g.treesame|) && i < |list|
    ensures CountChanging(g, list[i..]) == CountChanging(g, list[i + 1..]) + if g.treesame[list[i]] then 0 else 1
  {
    assert list[i..][0] == list[i] && list[i..][1..] == list[i + 1..];
  }

  lemma MisleadingCount()
    ensures Misleading().Valid() && CountChanging(Misleading(), [0, 1, 2, 3, 4, 5, 6]) == 4
  {
    hide CountChanging, Misleading;
    MisleadingIs();
    var g, list: seq<nat> := Misleading(), [0, 1, 2, 3, 4, 5, 6];
    CountAt(g, list, 0); CountAt(g, list, 1); CountAt(g, list, 2); CountAt(g, list, 3);
    CountAt(g, list, 4); CountAt(g, list, 5); CountAt(g, list, 6);
    assert list[7..] == [] && list[0..] == list;
    CountNil(g);
  }

  lemma OnlyFirst(w: seq<int>, c: nat)
    requires |w| == 7 && Misleading().Valid() && Closed(Misleading(), [0, 1, 2, 3, 4, 5, 6])
    requires Right(Misleading(), [0, 1, 2, 3, 4, 5, 6], w) && SinglesOpen(Misleading(), [0, 1, 2, 3, 4, 5, 6], w)
    requires BestKnown(Misleading(), [0, 1, 2, 3, 4, 5, 6], w, c, 4)
    ensures c == 0 && !Optimal(Misleading(), [0, 1, 2, 3, 4, 5, 6], c, 4)
  {
    hide Weight, ParentsOf, Misleading;
    MisleadingList();
    MisleadingIs();
    var list := [0, 1, 2, 3, 4, 5, 6];
    assert list[0] in list && list[1] in list && list[2] in list && list[3] in list;
  }

  lemma NoneChanging(g: Graph)
    requires |g.treesame| == |g.parents|
    ensures Changing(g, {}) == {}
  {
  }

  lemma ReachSelf(g: Graph, c: nat)
    requires g.Valid() && c < |g.parents| && !g.uninteresting[c]
    ensures c in Reach(g, c)
  {
  }
}
