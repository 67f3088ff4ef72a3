/**
 Blame entries and the lists they are kept in (git-2.15.0/blame.h, the list helpers of
 git-2.15.0/blame.c).  A linked list of entries is the sequence of its nodes.
 */
module BlameEntries {

  /** One group of lines: final lines lno.. are lines s_lno.. of the suspect's file. */
  datatype Entry = Entry(lno: nat, num_lines: nat, suspect: nat, s_lno: int, score: nat)

  // ---------------------------------------------------------------------------------------------
  // What a list says about lines.  Sum adds up f(final line, suspect line) over all lines covered;
  // the facts below are Sum for some f.

  type LineFn<!T> = (int, int) -> multiset<T>

  ghost function Run<T>(lno: int, s: int, n: nat, f: LineFn<T>): multiset<T>
    decreases n
  {
    if n == 0 then multiset{} else f(lno, s) + Run(lno + 1, s + 1, n - 1, f)
  }

  ghost function Sum<T>(es: seq<Entry>, f: LineFn<T>): multiset<T>
  {
    if es == [] then multiset{}
    else Run(es[0].lno, es[0].s_lno, es[0].num_lines, f) + Sum(es[1..], f)
  }

  ghost function PairOf(): LineFn<(int, int)> { (x: int, s: int) => multiset{(x, s)} }

  ghost function FinalOf(): LineFn<int> { (x: int, s: int) => multiset{x} }

  /** (final line, suspect line) for every line of the list. */
  ghost function Pairs(es: seq<Entry>): multiset<(int, int)> { Sum(es, PairOf()) }

  /** The final-image lines a list covers, with multiplicity. */
  ghost function Cover(es: seq<Entry>): multiset<int> { Sum(es, FinalOf()) }

  /** How many lines a list covers. */
  ghost function Size(es: seq<Entry>): nat
  {
    if es == [] then 0 else es[0].num_lines + Size(es[1..])
  }

  /** How many entries of a list name origin o: the references the list holds on o. */
  ghost function Naming(es: seq<Entry>, o: nat): nat
  {
    if es == [] then 0 else (if es[0].suspect == o then 1 else 0) + Naming(es[1..], o)
  }

  lemma {:induction false} RunSplit<T>(lno: int, s: int, n: nat, k: nat, f: LineFn<T>)
    requires k <= n
    ensures Run(lno, s, n, f) == Run(lno, s, k, f) + Run(lno + k, s + k, n - k, f)
    decreases n
  {
    if k > 0 { RunSplit(lno + 1, s + 1, n - 1, k - 1, f); }
  }

  /** f at final line x and suspect line x + d is g at final line x and suspect line x + d'. */
  ghost predicate AgreeAt<T>(f: LineFn<T>, g: LineFn<T>, x: int, d: int, d': int) { f(x, x + d) == g(x, x + d') }

  /** Runs whose lines agree line by line have the same sum. */
  lemma {:induction false} RunCong<T>(lno: int, d: int, d': int, n: nat, f: LineFn<T>, g: LineFn<T>)
    requires forall x :: lno <= x < lno + n ==> AgreeAt(f, g, x, d, d')
    ensures Run(lno, lno + d, n, f) == Run(lno, lno + d', n, g)
    decreases n
  {
    if n > 0 {
      assert AgreeAt(f, g, lno, d, d');
      RunCong(lno + 1, d, d', n - 1, f, g);
    }
  }

  lemma SumCons<T>(e: Entry, es: seq<Entry>, f: LineFn<T>)
    ensures Sum([e] + es, f) == Run(e.lno, e.s_lno, e.num_lines, f) + Sum(es, f)
    ensures Sum([], f) == multiset{}
  {
    assert ([e] + es)[1..] == es;
  }

  lemma {:induction false} SumConcat<T>(a: seq<Entry>, b: seq<Entry>, f: LineFn<T>)
    ensures Sum(a + b, f) == Sum(a, f) + Sum(b, f)
  {
    if a == [] {
      assert a + b == b;
    } else {
      assert (a + b)[1..] == a[1..] + b;
      SumConcat(a[1..], b, f);
    }
  }

  lemma {:induction false} SizeConcat(a: seq<Entry>, b: seq<Entry>)
    ensures Size(a + b) == Size(a) + Size(b)
  {
    if a == [] {
      assert a + b == b;
    } else {
      assert (a + b)[1..] == a[1..] + b;
      SizeConcat(a[1..], b);
    }
  }

  lemma {:induction false} NamingConcat(a: seq<Entry>, b: seq<Entry>, o: nat)
    ensures Naming(a + b, o) == Naming(a, o) + Naming(b, o)
  {
    if a == [] {
      assert a + b == b;
    } else {
      assert (a + b)[1..] == a[1..] + b;
      NamingConcat(a[1..], b, o);
    }
  }

  lemma NamingConcatAll(a: seq<Entry>, b: seq<Entry>)
    ensures forall o: nat :: Naming(a + b, o) == Naming(a, o) + Naming(b, o)
  {
    forall o: nat ensures Naming(a + b, o) == Naming(a, o) + Naming(b, o) { NamingConcat(a, b, o); }
  }

  lemma Without(b: seq<Entry>, i: nat)
    requires i < |b|
    ensures b == b[..i] + ([b[i]] + b[i + 1..])
    ensures multiset(b[..i] + b[i + 1..]) == multiset(b) - multiset{b[i]}
  {
    assert b == b[..i] + ([b[i]] + b[i + 1..]);
    assert multiset(b) == multiset(b[..i]) + (multiset{b[i]} + multiset(b[i + 1..]));
  }

  /** Equal bags: a's head is somewhere in b, and what is left is again a pair of equal bags. */
  lemma BagHead(a: seq<Entry>, b: seq<Entry>) returns (i: nat)
    requires a != [] && multiset(a) == multiset(b)
    ensures i < |b| && b[i] == a[0] && b == b[..i] + ([b[i]] + b[i + 1..])
    ensures multiset(a[1..]) == multiset(b[..i] + b[i + 1..])
  {
    assert a == [a[0]] + a[1..];
    assert a[0] in multiset(b);
    i :| 0 <= i < |b| && b[i] == a[0];
    Without(b, i);
    Without(a, 0);
    assert a[..0] + a[1..] == a[1..];
  }

  lemma {:induction false} BagSum<T>(a: seq<Entry>, b: seq<Entry>, f: LineFn<T>)
    requires multiset(a) == multiset(b)
    ensures Sum(a, f) == Sum(b, f)
  {
    if a == [] {
      assert |b| == |multiset(b)| == |multiset(a)|;
    } else {
      var i := BagHead(a, b);
      BagSum(a[1..], b[..i] + b[i + 1..], f);
      SumConcat(b[..i], [b[i]] + b[i + 1..], f);
      SumConcat(b[..i], b[i + 1..], f);
      assert ([b[i]] + b[i + 1..])[1..] == b[i + 1..];
    }
  }

  lemma {:induction false} BagCounts(a: seq<Entry>, b: seq<Entry>)
    requires multiset(a) == multiset(b)
    ensures Size(a) == Size(b) && forall o: nat :: Naming(a, o) == Naming(b, o)
  {
    if a == [] {
      assert |b| == |multiset(b)| == |multiset(a)|;
    } else {
      var i := BagHead(a, b);
      BagCounts(a[1..], b[..i] + b[i + 1..]);
      SizeConcat(b[..i], [b[i]] + b[i + 1..]);
      SizeConcat(b[..i], b[i + 1..]);
      NamingConcatAll(b[..i], [b[i]] + b[i + 1..]);
      NamingConcatAll(b[..i], b[i + 1..]);
      assert ([b[i]] + b[i + 1..])[1..] == b[i + 1..];
    }
  }

  // ---------------------------------------------------------------------------------------------
  // Order: suspect lists are kept in the order of their first suspect line, and of that only.

  ghost predicate AllFrom(es: seq<Entry>, m: int) { forall e :: e in es ==> m <= e.s_lno }

  ghost predicate Sorted(es: seq<Entry>)
  {
    es == [] || (AllFrom(es[1..], es[0].s_lno) && Sorted(es[1..]))
  }

  lemma {:induction false} SortedConcat(a: seq<Entry>, b: seq<Entry>, m: int)
    requires Sorted(a) && Sorted(b) && AllFrom(b, m) && forall e :: e in a ==> e.s_lno <= m
    ensures Sorted(a + b)
  {
    if a == [] {
      assert a + b == b;
    } else {
      assert (a + b)[1..] == a[1..] + b;
      SortedConcat(a[1..], b, m);
      forall e | e in (a + b)[1..] ensures a[0].s_lno <= e.s_lno {
        if e in a[1..] {} else { assert a[0].s_lno <= m; }
      }
    }
  }

  // ---------------------------------------------------------------------------------------------
  // Lists

  function Rev(es: seq<Entry>): (r: seq<Entry>)
    ensures |r| == |es|
  {
    if es == [] then [] else Rev(es[1..]) + [es[0]]
  }

  /** reverse_blame: head reversed, in front of tail. */
  method ReverseBlame(head: seq<Entry>, tail: seq<Entry>) returns (r: seq<Entry>)
    ensures r == Rev(head) + tail
  {
    var h, t := head, tail;
    while h != []
      invariant Rev(h) + t == Rev(head) + tail
    {
      assert Rev(h) + t == Rev(h[1..]) + ([h[0]] + t);
      t := [h[0]] + t;
      h := h[1..];
    }
    r := t;
  }

  lemma {:induction false} RevBag(es: seq<Entry>)
    ensures multiset(Rev(es)) == multiset(es)
  {
    if es != [] {
      RevBag(es[1..]);
      assert es == [es[0]] + es[1..];
    }
  }

  /** The stable merge by first suspect line, the left list first on a tie. */
  function Merge(a: seq<Entry>, b: seq<Entry>): (r: seq<Entry>)
    decreases |a| + |b|
  {
    if a == [] then b
    else if b == [] then a
    else if a[0].s_lno <= b[0].s_lno then [a[0]] + Merge(a[1..], b)
    else [b[0]] + Merge(a, b[1..])
  }

  lemma {:induction false} MergeBag(a: seq<Entry>, b: seq<Entry>)
    ensures multiset(Merge(a, b)) == multiset(a) + multiset(b)
    ensures forall e :: e in Merge(a, b) <==> e in a || e in b
    decreases |a| + |b|
  {
    if a != [] && b != [] {
      assert a == [a[0]] + a[1..] && b == [b[0]] + b[1..];
      if a[0].s_lno <= b[0].s_lno { MergeBag(a[1..], b); } else { MergeBag(a, b[1..]); }
    }
  }

  lemma {:induction false} MergeSorted(a: seq<Entry>, b: seq<Entry>)
    requires Sorted(a) && Sorted(b)
    ensures Sorted(Merge(a, b))
    decreases |a| + |b|
  {
    if a != [] && b != [] {
      if a[0].s_lno <= b[0].s_lno {
        MergeSorted(a[1..], b);
        MergeBag(a[1..], b);
        assert Merge(a, b)[1..] == Merge(a[1..], b);
      } else {
        MergeSorted(a, b[1..]);
        MergeBag(a, b[1..]);
        assert Merge(a, b)[1..] == Merge(a, b[1..]);
      }
    }
  }

  /**
   blame_merge: relinks two lists into one, walking runs of the one, then of the other.
   out is the part already linked; tail always points at its end.
   */
  method BlameMerge(list1: seq<Entry>, list2: seq<Entry>) returns (r: seq<Entry>)
    ensures r == Merge(list1, list2)
  {
    var p1, p2 := list1, list2;
    if p1 == [] { return p2; }
    if p2 == [] { return p1; }
    var out: seq<Entry> := [];
    if p1[0].s_lno <= p2[0].s_lno {
      out, p1 := TakeLeft(out, p1, p2);
      if p1 == [] { return out + p2; }
    }
    while true
      invariant p1 != [] && p2 != [] && p1[0].s_lno > p2[0].s_lno
      invariant out + Merge(p1, p2) == Merge(list1, list2)
      decreases |p1| + |p2|
    {
      out, p2 := TakeRight(out, p1, p2);
      if p2 == [] { return out + p1; }
      out, p1 := TakeLeft(out, p1, p2);
      if p1 == [] { return out + p2; }
    }
  }

  lemma MergeStep(out: seq<Entry>, a: seq<Entry>, b: seq<Entry>)
    requires a != [] && b != []
    ensures a[0].s_lno <= b[0].s_lno ==> out + Merge(a, b) == (out + [a[0]]) + Merge(a[1..], b)
    ensures a[0].s_lno > b[0].s_lno ==> out + Merge(a, b) == (out + [b[0]]) + Merge(a, b[1..])
  {
  }

  /** The do-while of blame_merge that links nodes of the first list. */
  method TakeLeft(out: seq<Entry>, p1: seq<Entry>, p2: seq<Entry>) returns (out': seq<Entry>, p1': seq<Entry>)
    requires p1 != [] && p2 != [] && p1[0].s_lno <= p2[0].s_lno
    ensures |p1'| < |p1| && (p1' != [] ==> p1'[0].s_lno > p2[0].s_lno)
    ensures out' + Merge(p1', p2) == out + Merge(p1, p2)
  {
    hide Merge;
    out', p1' := out, p1;
    while true
      invariant p1' != [] && |p1'| <= |p1| && p1'[0].s_lno <= p2[0].s_lno
      invariant out' + Merge(p1', p2) == out + Merge(p1, p2)
      decreases |p1'|
    {
      MergeStep(out', p1', p2);
      out', p1' := out' + [p1'[0]], p1'[1..];
      if p1' == [] || p1'[0].s_lno > p2[0].s_lno { return; }
    }
  }

  /** The do-while of blame_merge that links nodes of the second list. */
  method TakeRight(out: seq<Entry>, p1: seq<Entry>, p2: seq<Entry>) returns (out': seq<Entry>, p2': seq<Entry>)
    requires p1 != [] && p2 != [] && p1[0].s_lno > p2[0].s_lno
    ensures |p2'| < |p2| && (p2' != [] ==> p1[0].s_lno <= p2'[0].s_lno)
    ensures out' + Merge(p1, p2') == out + Merge(p1, p2)
  {
    hide Merge;
    out', p2' := out, p2;
    while true
      invariant p2' != [] && |p2'| <= |p2| && p1[0].s_lno > p2'[0].s_lno
      invariant out' + Merge(p1, p2') == out + Merge(p1, p2)
      decreases |p2'|
    {
      MergeStep(out', p1, p2');
      out', p2' := out' + [p2'[0]], p2'[1..];
      if p2' == [] || p1[0].s_lno <= p2'[0].s_lno { return; }
    }
  }
}
