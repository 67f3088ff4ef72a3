/**
 The scoreboard as a whole: what all suspect lists cover, hold and weigh together, and putting lists of
 blames into the queue (queue_blames, distribute_blame, pass_whole_blame in git-2.15.0/blame.c).
 */
module BlameQueue {
  import opened BlameEntries
  import opened BlameHistory
  import opened BlameCut
  import opened BlameSearch
  import opened BlameDiff

  /** The final lines of all suspect lists together. */
  ghost function TotalCover(sus: seq<seq<Entry>>): multiset<int>
  {
    if sus == [] then multiset{} else Cover(sus[0]) + TotalCover(sus[1..])
  }

  ghost function TotalNaming(sus: seq<seq<Entry>>, o: nat): nat
  {
    if sus == [] then 0 else Naming(sus[0], o) + TotalNaming(sus[1..], o)
  }

  /** Every line weighs one more than the rank of the commit it is blamed on. */
  ghost function Weight(h: History, es: seq<Entry>): nat
  {
    if es == [] then 0 else es[0].num_lines * (RankOf(h, es[0].suspect) + 1) + Weight(h, es[1..])
  }

  ghost function RankOf(h: History, o: nat): nat
  {
    if o < |h.commit| && h.commit[o] < |h.rank| then h.rank[h.commit[o]] else 0
  }

  ghost function TotalWeight(h: History, sus: seq<seq<Entry>>): nat
  {
    if sus == [] then 0 else Weight(h, sus[0]) + TotalWeight(h, sus[1..])
  }

  lemma {:induction false} TotalUpdate(h: History, sus: seq<seq<Entry>>, i: nat, es: seq<Entry>)
    requires i < |sus|
    ensures TotalCover(sus[i := es]) + Cover(sus[i]) == TotalCover(sus) + Cover(es)
    ensures TotalWeight(h, sus[i := es]) + Weight(h, sus[i]) == TotalWeight(h, sus) + Weight(h, es)
    ensures forall o: nat :: TotalNaming(sus[i := es], o) + Naming(sus[i], o) == TotalNaming(sus, o) + Naming(es, o)
  {
    hide Sum, Weight, Naming;
    if i == 0 {
      assert sus[i := es][1..] == sus[1..];
    } else {
      assert sus[i := es][1..] == sus[1..][i - 1 := es];
      TotalUpdate(h, sus[1..], i - 1, es);
      Swap(Cover(sus[0]), TotalCover(sus[1..][i - 1 := es]), Cover(sus[i]), TotalCover(sus[1..]), Cover(es));
    }
  }

  lemma Swap<T>(a: multiset<T>, b: multiset<T>, c: multiset<T>, d: multiset<T>, e: multiset<T>)
    requires b + c == d + e
    ensures (a + b) + c == (a + d) + e
  {
    assert (a + b) + c == a + (b + c);
    assert (a + d) + e == a + (d + e);
  }

  lemma {:induction false} WeightConcat(h: History, a: seq<Entry>, b: seq<Entry>)
    ensures Weight(h, a + b) == Weight(h, a) + Weight(h, b)
  {
    if a == [] {
      assert a + b == b;
    } else {
      assert (a + b)[1..] == a[1..] + b;
      WeightConcat(h, a[1..], b);
    }
  }

  lemma {:induction false} BagWeight(h: History, a: seq<Entry>, b: seq<Entry>)
    requires multiset(a) == multiset(b)
    ensures Weight(h, a) == Weight(h, b)
  {
    if a == [] {
      assert |b| == |multiset(b)| == |multiset(a)|;
    } else {
      var i := BagHead(a, b);
      BagWeight(h, a[1..], b[..i] + b[i + 1..]);
      WeightConcat(h, b[..i], [b[i]] + b[i + 1..]);
      WeightConcat(h, b[..i], b[i + 1..]);
      assert ([b[i]] + b[i + 1..])[1..] == b[i + 1..];
    }
  }

  /** What a list naming one origin weighs. */
  lemma {:induction false} NamedWeight(h: History, es: seq<Entry>, o: nat)
    requires AllNaming(es, o)
    ensures Weight(h, es) == Size(es) * (RankOf(h, o) + 1)
  {
    if es != [] {
      NamedWeight(h, es[1..], o);
      assert es[0] in es;
      Distribute(es[0].num_lines, Size(es[1..]), RankOf(h, o) + 1);
    }
  }

  lemma Distribute(a: nat, b: nat, c: nat)
    ensures a * c + b * c == (a + b) * c
  {
  }

  /** What a list naming only lower origins weighs: each line is at least one lighter than with the target. */
  lemma {:induction false} PassedWeight(h: History, es: seq<Entry>, target: nat)
    requires Passed(h, es, target)
    ensures Weight(h, es) + Size(es) <= Size(es) * (RankOf(h, target) + 1)
  {
    if es != [] {
      PassedWeight(h, es[1..], target);
      assert LowerOrigin(h, es[0].suspect, target);
      var n, r, rt := es[0].num_lines, RankOf(h, es[0].suspect) + 1, RankOf(h, target) + 1;
      LessTimes(n, r, rt);
      Distribute(n, Size(es[1..]), rt);
    }
  }

  lemma {:induction false} LessTimes(n: nat, r: nat, rt: nat)
    requires r < rt
    ensures n * r + n <= n * rt
  {
    if n > 0 {
      LessTimes(n - 1, r, rt);
      Distribute(n - 1, 1, r);
      Distribute(n - 1, 1, rt);
    }
  }

  lemma MergeTotals(h: History, a: seq<Entry>, b: seq<Entry>)
    ensures Cover(Merge(a, b)) == Cover(a) + Cover(b)
    ensures Weight(h, Merge(a, b)) == Weight(h, a) + Weight(h, b)
    ensures forall o: nat :: Naming(Merge(a, b), o) == Naming(a, o) + Naming(b, o)
  {
    MergeBag(a, b);
    assert multiset(Merge(a, b)) == multiset(a + b);
    BagSum(Merge(a, b), a + b, FinalOf());
    BagCounts(Merge(a, b), a + b);
    BagWeight(h, Merge(a, b), a + b);
    SumConcat(a, b, FinalOf());
    NamingConcatAll(a, b);
    WeightConcat(h, a, b);
  }

  lemma MergeSuspects(h: History, a: seq<Entry>, b: seq<Entry>, o: nat)
    requires Suspects(h, a, o) && Suspects(h, b, o)
    ensures Suspects(h, Merge(a, b), o)
  {
    MergeBag(a, b);
    MergeSorted(a, b);
  }

  /** Whoever has suspects has its commit queued, or it is the commit being worked on. */
  ghost predicate Queued(h: History, sus: seq<seq<Entry>>, queue: seq<nat>, current: Option<nat>)
    requires |sus| == |h.commit|
  {
    && (forall o :: 0 <= o < |sus| && sus[o] != [] ==> h.commit[o] in queue || current == Some(h.commit[o]))
    && (forall c :: c in queue ==> c < |h.parents|)
  }

  /** Some origin of commit c has suspects. */
  ghost predicate Pending(h: History, sus: seq<seq<Entry>>, c: nat)
    requires |sus| == |h.commit|
  {
    exists o :: 0 <= o < |sus| && h.commit[o] == c && sus[o] != []
  }

  /** queue_blames: merges into porigin's suspects; a commit that had none at all enters the queue. */
  method QueueBlames(sb: Scoreboard, porigin: nat, sorted: seq<Entry>)
    requires sb.Shape() && porigin < |sb.suspects|
    modifies sb`suspects, sb`queue
    ensures sb.Shape()
    ensures sb.suspects == old(sb.suspects)[porigin := Merge(old(sb.suspects)[porigin], sorted)]
    ensures sb.queue == if Pending(sb.h, old(sb.suspects), sb.h.commit[porigin]) then old(sb.queue)
                        else old(sb.queue) + [sb.h.commit[porigin]]
  {
    if sb.suspects[porigin] != [] {
      var merged := BlameMerge(sb.suspects[porigin], sorted);
      sb.suspects := sb.suspects[porigin := merged];
      return;
    }
    var chain := sb.h.chain[sb.h.commit[porigin]];
    var i := 0;
    while i < |chain|
      invariant i <= |chain|
      invariant forall k :: 0 <= k < i ==> sb.suspects[chain[k]] == []
    {
      if sb.suspects[chain[i]] != [] {
        sb.suspects := sb.suspects[porigin := sorted];
        return;
      }
      i := i + 1;
    }
    sb.suspects := sb.suspects[porigin := sorted];
    sb.queue := sb.queue + [sb.h.commit[porigin]];
  }

  lemma Cancel<T>(t': multiset<T>, t: multiset<T>, a: multiset<T>, b: multiset<T>)
    requires t' + a == t + (a + b)
    ensures t' == t + b
  {
    assert t' == (t' + a) - a;
    assert t + b == (t + (a + b)) - a;
  }

  lemma MergeNil(a: seq<Entry>, b: seq<Entry>)
    ensures Merge(a, b) == [] ==> a == [] == b
  {
  }

  /** Queueing keeps every list a suspect list and every commit with suspects queued. */
  lemma QueueKeeps(h: History, sus: seq<seq<Entry>>, queue: seq<nat>, current: Option<nat>, p: nat, sorted: seq<Entry>,
                   sus': seq<seq<Entry>>, queue': seq<nat>)
    requires |sus| == |h.commit| && p < |sus| && h.commit[p] < |h.parents| && Queued(h, sus, queue, current)
    requires sus' == sus[p := Merge(sus[p], sorted)]
    requires queue' == if Pending(h, sus, h.commit[p]) then queue else queue + [h.commit[p]]
    ensures Queued(h, sus', queue', current)
    ensures TotalCover(sus') == TotalCover(sus) + Cover(sorted)
    ensures TotalWeight(h, sus') == TotalWeight(h, sus) + Weight(h, sorted)
    ensures forall o: nat :: TotalNaming(sus', o) == TotalNaming(sus, o) + Naming(sorted, o)
  {
    hide Sum, Run, TotalCover, TotalWeight, TotalNaming, Weight, Naming, Merge;
    TotalUpdate(h, sus, p, Merge(sus[p], sorted));
    MergeTotals(h, sus[p], sorted);
    Cancel(TotalCover(sus'), TotalCover(sus), Cover(sus[p]), Cover(sorted));
    MergeNil(sus[p], sorted);
    if Pending(h, sus, h.commit[p]) {
      var o :| 0 <= o < |sus| && h.commit[o] == h.commit[p] && sus[o] != [];
    }
  }

  // ---------------------------------------------------------------------------------------------
  // The state while the suspects of one origin, busy, are being broken down

  /** Every list names its origin; all but busy's are in order. */
  ghost predicate Healthy(h: History, sus: seq<seq<Entry>>, busy: nat)
  {
    forall o :: 0 <= o < |sus| ==> Mine(h, sus[o], o) && (o != busy ==> Sorted(sus[o]))
  }

  ghost predicate Working(sb: Scoreboard, busy: nat)
    reads sb
  {
    && sb.Shape() && busy < |sb.suspects|
    && Healthy(sb.h, sb.suspects, busy)
    && Queued(sb.h, sb.suspects, sb.queue, Some(sb.h.commit[busy]))
  }

  lemma HealthyMerge(h: History, sus: seq<seq<Entry>>, busy: nat, p: nat, sorted: seq<Entry>)
    requires Healthy(h, sus, busy) && p < |sus| && p != busy && Suspects(h, sorted, p)
    ensures Healthy(h, sus[p := Merge(sus[p], sorted)], busy)
  {
    MergeSuspects(h, sus[p], sorted, p);
  }

  /** Queueing another origin's suspect list keeps the state, and adds exactly what it covers, names and weighs. */
  method Enqueue(sb: Scoreboard, busy: nat, porigin: nat, sorted: seq<Entry>)
    requires Working(sb, busy) && porigin < |sb.suspects| && porigin != busy && Suspects(sb.h, sorted, porigin)
    modifies sb`suspects, sb`queue
    ensures Working(sb, busy) && sb.suspects[busy] == old(sb.suspects)[busy]
    ensures sb.suspects == old(sb.suspects)[porigin := Merge(old(sb.suspects)[porigin], sorted)]
    ensures TotalCover(sb.suspects) == TotalCover(old(sb.suspects)) + Cover(sorted)
    ensures TotalWeight(sb.h, sb.suspects) == TotalWeight(sb.h, old(sb.suspects)) + Weight(sb.h, sorted)
    ensures forall o: nat :: TotalNaming(sb.suspects, o) == TotalNaming(old(sb.suspects), o) + Naming(sorted, o)
  {
    hide TotalCover, TotalWeight, TotalNaming, Weight, Naming, Merge, Sum, Healthy, Suspects;
    ghost var sus, queue := sb.suspects, sb.queue;
    QueueBlames(sb, porigin, sorted);
    HealthyMerge(sb.h, sus, busy, porigin, sorted);
    QueueKeeps(sb.h, sus, queue, Some(sb.h.commit[busy]), porigin, sorted, sb.suspects, sb.queue);
  }

  // ---------------------------------------------------------------------------------------------
  // distribute_blame

  /** compare_blame_suspect: by origin (any total order will do), then by suspect line. */
  predicate Before(a: Entry, b: Entry) { a.suspect < b.suspect || (a.suspect == b.suspect && a.s_lno <= b.s_lno) }

  ghost predicate InOrder(es: seq<Entry>)
  {
    es == [] || ((forall e :: e in es[1..] ==> Before(es[0], e)) && InOrder(es[1..]))
  }

  function Insert(e: Entry, es: seq<Entry>): seq<Entry>
  {
    if es == [] || Before(e, es[0]) then [e] + es else [es[0]] + Insert(e, es[1..])
  }

  /** Stands for llist_mergesort with compare_blame_suspect. */
  function SortBlames(es: seq<Entry>): seq<Entry>
  {
    if es == [] then [] else Insert(es[0], SortBlames(es[1..]))
  }

  lemma {:induction false} InsertSorts(e: Entry, es: seq<Entry>)
    requires InOrder(es)
    ensures InOrder(Insert(e, es)) && multiset(Insert(e, es)) == multiset([e] + es)
    ensures forall x :: x in Insert(e, es) <==> x == e || x in es
  {
    if es == [] || Before(e, es[0]) {
      assert ([e] + es)[1..] == es;
      if es != [] {
        assert es == [es[0]] + es[1..];
        forall x | x in es ensures Before(e, x) { assert x == es[0] || x in es[1..]; }
      }
    } else {
      InsertSorts(e, es[1..]);
      assert es == [es[0]] + es[1..];
      assert Insert(e, es)[1..] == Insert(e, es[1..]);
    }
  }

  lemma {:induction false} SortSorts(es: seq<Entry>)
    ensures InOrder(SortBlames(es)) && multiset(SortBlames(es)) == multiset(es)
  {
    if es != [] {
      SortSorts(es[1..]);
      InsertSorts(es[0], SortBlames(es[1..]));
      assert es == [es[0]] + es[1..];
    }
  }

  lemma SortTotals(h: History, es: seq<Entry>, busy: nat)
    requires Passed(h, es, busy)
    ensures var s := SortBlames(es);
      && InOrder(s) && Passed(h, s, busy)
      && Cover(s) == Cover(es) && Weight(h, s) == Weight(h, es) && forall o: nat :: Naming(s, o) == Naming(es, o)
  {
    SortSorts(es);
    var s := SortBlames(es);
    BagSum(s, es, FinalOf());
    BagCounts(s, es);
    BagWeight(h, s, es);
    forall e | e in s ensures e in es { assert e in multiset(s); }
  }

  /** The do-while of distribute_blame: takes off the entries of the first one's origin, stacking them. */
  method TakeGroup(h: History, blamed: seq<Entry>, ghost busy: nat) returns (porigin: nat, stack: seq<Entry>,
                   rest: seq<Entry>)
    requires blamed != [] && InOrder(blamed) && Passed(h, blamed, busy)
    ensures porigin == blamed[0].suspect && Rev(stack) + rest == blamed && |rest| < |blamed|
    ensures InOrder(rest) && Passed(h, rest, busy) && Suspects(h, Rev(stack), porigin)
    ensures forall e :: e in rest ==> e.suspect != porigin
  {
    hide Good;
    porigin := blamed[0].suspect;
    stack, rest := [], blamed;
    while true
      invariant rest != [] && rest[0].suspect == porigin && |rest| <= |blamed|
      invariant Rev(stack) + rest == blamed && InOrder(rest)
      invariant Passed(h, rest, busy) && Suspects(h, Rev(stack), porigin)
      invariant forall e :: e in Rev(stack) ==> e.s_lno <= rest[0].s_lno
      decreases |rest|
    {
      RevPush(rest[0], stack, rest[1..]);
      assert rest == [rest[0]] + rest[1..];
      RevCons(rest[0], stack);
      SortedConcat(Rev(stack), [rest[0]], rest[0].s_lno);
      ghost var was := rest[0];
      stack, rest := [rest[0]] + stack, rest[1..];
      if rest == [] { break; }
      assert Before(was, rest[0]);
      if rest[0].suspect != porigin {
        OthersBehind(rest, porigin);
        break;
      }
    }
  }

  lemma OthersBehind(es: seq<Entry>, o: nat)
    requires InOrder(es) && es != [] && o < es[0].suspect
    ensures forall e :: e in es ==> e.suspect != o
  {
    assert es == [es[0]] + es[1..];
    forall e | e in es ensures e.suspect != o { assert e == es[0] || Before(es[0], e); }
  }

  lemma RevCons(x: Entry, es: seq<Entry>)
    ensures Rev([x] + es) == Rev(es) + [x]
  {
    assert ([x] + es)[1..] == es;
  }

  /** The entries of a list that name origin o, in order. */
  ghost function Group(es: seq<Entry>, o: nat): seq<Entry>
  {
    if es == [] then [] else (if es[0].suspect == o then [es[0]] else []) + Group(es[1..], o)
  }

  /** Every origin's list with what was collected for it merged in, in the order of the suspect's lines. */
  ghost function Distributed(sus: seq<seq<Entry>>, blamed: seq<Entry>): (r: seq<seq<Entry>>)
    ensures |r| == |sus|
  {
    seq(|sus|, o requires 0 <= o < |sus| => Merge(sus[o], Group(SortBlames(blamed), o)))
  }

  lemma {:induction false} GroupConcat(a: seq<Entry>, b: seq<Entry>, o: nat)
    ensures Group(a + b, o) == Group(a, o) + Group(b, o)
  {
    hide Group;
    GroupHead(a, o); GroupHead(a + b, o);
    if a == [] {
      assert a + b == b && [] + Group(b, o) == Group(b, o);
    } else {
      assert (a + b)[1..] == a[1..] + b;
      GroupConcat(a[1..], b, o);
      var head := if a[0].suspect == o then [a[0]] else [];
      assert (head + Group(a[1..], o)) + Group(b, o) == head + (Group(a[1..], o) + Group(b, o));
    }
  }

  lemma GroupHead(es: seq<Entry>, o: nat)
    ensures Group(es, o) == if es == [] then [] else (if es[0].suspect == o then [es[0]] else []) + Group(es[1..], o)
  {
  }

  lemma {:induction false} GroupOf(es: seq<Entry>, o: nat)
    ensures AllNaming(es, o) ==> Group(es, o) == es
    ensures (forall e :: e in es ==> e.suspect != o) ==> Group(es, o) == []
  {
    if es != [] {
      assert es == [es[0]] + es[1..];
      GroupOf(es[1..], o);
    }
  }

  lemma {:induction false} GroupBag(a: seq<Entry>, b: seq<Entry>, o: nat)
    requires multiset(a) == multiset(b)
    ensures multiset(Group(a, o)) == multiset(Group(b, o))
  {
    if a == [] {
      assert |b| == |multiset(b)| == |multiset(a)|;
    } else {
      var i := BagHead(a, b);
      GroupBag(a[1..], b[..i] + b[i + 1..], o);
      GroupConcat(b[..i], [b[i]] + b[i + 1..], o);
      GroupConcat(b[..i], b[i + 1..], o);
      assert ([b[i]] + b[i + 1..])[1..] == b[i + 1..];
    }
  }

  /** Every origin gets exactly the entries that name it, and a list that was in order stays in order. */
  lemma DistributedBags(sus: seq<seq<Entry>>, blamed: seq<Entry>, o: nat)
    requires o < |sus|
    ensures multiset(Distributed(sus, blamed)[o]) == multiset(sus[o]) + multiset(Group(blamed, o))
    ensures Sorted(sus[o]) ==> Sorted(Distributed(sus, blamed)[o])
  {
    hide Merge, Sorted;
    SortSorts(blamed);
    GroupBag(SortBlames(blamed), blamed, o);
    MergeBag(sus[o], Group(SortBlames(blamed), o));
    GroupSorted(SortBlames(blamed), o);
    if Sorted(sus[o]) { MergeSorted(sus[o], Group(SortBlames(blamed), o)); }
  }

  lemma {:induction false} GroupSorted(es: seq<Entry>, o: nat)
    requires InOrder(es)
    ensures Sorted(Group(es, o)) && forall e :: e in Group(es, o) ==> e in es && e.suspect == o
  {
    if es != [] {
      assert es == [es[0]] + es[1..];
      GroupSorted(es[1..], o);
      if es[0].suspect == o {
        var g := Group(es[1..], o);
        assert Group(es, o)[1..] == g;
        forall e | e in g ensures es[0].s_lno <= e.s_lno { assert Before(es[0], e); }
      } else {
        assert Group(es, o) == Group(es[1..], o);
      }
    }
  }

  /** Where distribute_blame stands: an origin has its whole group, or still all of it waits. */
  ghost predicate Distributing(was: seq<seq<Entry>>, sus: seq<seq<Entry>>, sorted: seq<Entry>, rest: seq<Entry>)
  {
    |sus| == |was| && forall o :: 0 <= o < |sus| ==>
      || (sus[o] == was[o] && Group(rest, o) == Group(sorted, o))
      || (sus[o] == Merge(was[o], Group(sorted, o)) && Group(rest, o) == [])
  }

  lemma TakenGroup(was: seq<seq<Entry>>, sus: seq<seq<Entry>>, sorted: seq<Entry>, rest: seq<Entry>,
                   p: nat, taken: seq<Entry>, rest': seq<Entry>)
    requires Distributing(was, sus, sorted, rest) && rest == taken + rest' && p < |sus|
    requires taken != [] && AllNaming(taken, p) && forall e :: e in rest' ==> e.suspect != p
    ensures Distributing(was, sus[p := Merge(sus[p], taken)], sorted, rest')
  {
    hide Group, Merge;
    forall o: nat | o < |sus| ensures Group(rest, o) == Group(taken, o) + Group(rest', o) {
      GroupConcat(taken, rest', o);
    }
    GroupOf(taken, p);
    GroupOf(rest', p);
    assert Group(taken, p) + Group(rest', p) == taken;
    forall o: nat | o < |sus| && o != p ensures Group(rest', o) == Group(rest, o) {
      GroupOf(taken, o);
      assert [] + Group(rest', o) == Group(rest', o);
    }
  }

  lemma GroupsDone(was: seq<seq<Entry>>, sus: seq<seq<Entry>>, blamed: seq<Entry>)
    requires Distributing(was, sus, SortBlames(blamed), [])
    ensures sus == Distributed(was, blamed)
  {
    hide SortBlames;
    forall o | 0 <= o < |sus| ensures sus[o] == Distributed(was, blamed)[o] {
      if Group(SortBlames(blamed), o) == [] { assert Merge(was[o], []) == was[o]; }
    }
  }

  /** distribute_blame: sorts what was collected and queues it origin by origin. */
  method DistributeBlame(sb: Scoreboard, busy: nat, blamed: seq<Entry>)
    requires Working(sb, busy) && Passed(sb.h, blamed, busy)
    modifies sb`suspects, sb`queue
    ensures Working(sb, busy) && sb.suspects[busy] == old(sb.suspects)[busy]
    ensures sb.suspects == Distributed(old(sb.suspects), blamed)
    ensures TotalCover(sb.suspects) == TotalCover(old(sb.suspects)) + Cover(blamed)
    ensures TotalWeight(sb.h, sb.suspects) == TotalWeight(sb.h, old(sb.suspects)) + Weight(sb.h, blamed)
    ensures forall o: nat :: TotalNaming(sb.suspects, o) == TotalNaming(old(sb.suspects), o) + Naming(blamed, o)
  {
    hide TotalCover, TotalWeight, TotalNaming, Weight, Naming, Sum, InOrder, Healthy, Suspects, Good, Rev,
      SortBlames, Distributing, Distributed, Merge;
    SortTotals(sb.h, blamed, busy);
    var rest := SortBlames(blamed);
    DistributingStart(sb.suspects, rest);
    while rest != []
      invariant Working(sb, busy) && sb.suspects[busy] == old(sb.suspects)[busy]
      invariant InOrder(rest) && Passed(sb.h, rest, busy)
      invariant Distributing(old(sb.suspects), sb.suspects, SortBlames(blamed), rest)
      invariant TotalCover(sb.suspects) + Cover(rest) == TotalCover(old(sb.suspects)) + Cover(blamed)
      invariant TotalWeight(sb.h, sb.suspects) + Weight(sb.h, rest)
        == TotalWeight(sb.h, old(sb.suspects)) + Weight(sb.h, blamed)
      invariant forall o: nat ::
        TotalNaming(sb.suspects, o) + Naming(rest, o) == TotalNaming(old(sb.suspects), o) + Naming(blamed, o)
      decreases |rest|
    {
      var porigin, stack, rest' := TakeGroup(sb.h, rest, busy);
      assert LowerOrigin(sb.h, rest[0].suspect, busy);
      SumConcat(Rev(stack), rest', FinalOf());
      WeightConcat(sb.h, Rev(stack), rest');
      NamingConcatAll(Rev(stack), rest');
      SomeTaken(sb.h, Rev(stack), porigin, rest', rest);
      TakenGroup(old(sb.suspects), sb.suspects, SortBlames(blamed), rest, porigin, Rev(stack), rest');
      var suspects := ReverseBlame(stack, []);
      assert suspects == Rev(stack);
      ghost var t := TotalCover(sb.suspects);
      Enqueue(sb, busy, porigin, suspects);
      assert TotalCover(sb.suspects) + Cover(rest') == t + (Cover(Rev(stack)) + Cover(rest'));
      rest := rest';
    }
    GroupsDone(old(sb.suspects), sb.suspects, blamed);
    NilTotals(sb.h);
  }

  lemma DistributingStart(sus: seq<seq<Entry>>, sorted: seq<Entry>)
    ensures Distributing(sus, sus, sorted, sorted)
  {
  }

  lemma SomeTaken(h: History, taken: seq<Entry>, o: nat, rest: seq<Entry>, es: seq<Entry>)
    requires Suspects(h, taken, o) && taken + rest == es && |rest| < |es|
    ensures taken != [] && AllNaming(taken, o)
  {
  }

  lemma NilTotals(h: History)
    ensures Cover([]) == multiset{} && Weight(h, []) == 0 && forall o: nat :: Naming([], o) == 0
  {
  }
}
