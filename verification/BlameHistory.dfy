/**
 The history a blame run walks: commits, the origins (commit, path) met in them, their files, and
 the machinery outside blame.c as function values: line diff, find_origin/find_rename, tree diff.
 */
module BlameHistory {
  import opened BlameEntries

  type Line = string
  type File = seq<Line>

  const INT_MAX := 0x7fff_ffff

  datatype Option<+T> = None | Some(value: T)

  /** count_a lines of the parent from start_a became count_b lines of the target from start_b. */
  datatype Hunk = Hunk(start_a: nat, count_a: nat, start_b: nat, count_b: nat)

  /** What a literal line diff promises: from (pa, pb) on, the lines between hunks are the same lines. */
  ghost predicate ValidHunks(a: File, b: File, hs: seq<Hunk>, pa: nat, pb: nat)
  {
    if hs == [] then pa <= |a| && pb <= |b| && a[pa..] == b[pb..]
    else
      && pa <= hs[0].start_a <= hs[0].start_a + hs[0].count_a <= |a|
      && pb <= hs[0].start_b <= hs[0].start_b + hs[0].count_b <= |b|
      && a[pa..hs[0].start_a] == b[pb..hs[0].start_b]
      && ValidHunks(a, b, hs[1..], hs[0].start_a + hs[0].count_a, hs[0].start_b + hs[0].count_b)
  }

  /** The parent's line that target line s came from, if s lies outside all hunks. */
  ghost function ParentLine(hs: seq<Hunk>, pa: int, pb: int, s: int): Option<int>
  {
    if hs == [] || s < hs[0].start_b then Some(s + (pa - pb))
    else if s < hs[0].start_b + hs[0].count_b then None
    else ParentLine(hs[1..], hs[0].start_a + hs[0].count_a, hs[0].start_b + hs[0].count_b, s)
  }

  /** ParentLine names a line of the parent with the same text. */
  lemma {:induction false} ParentLineText(a: File, b: File, hs: seq<Hunk>, pa: nat, pb: nat, s: int)
    requires ValidHunks(a, b, hs, pa, pb) && pb <= s < |b|
    ensures var t := ParentLine(hs, pa, pb, s); t.Some? ==> 0 <= t.value < |a| && a[t.value] == b[s]
  {
    if hs == [] {
      assert |a[pa..]| == |b[pb..]|;
      assert a[pa..][s - pb] == b[pb..][s - pb];
    } else if s < hs[0].start_b {
      assert |a[pa..hs[0].start_a]| == |b[pb..hs[0].start_b]|;
      assert a[pa..hs[0].start_a][s - pb] == b[pb..hs[0].start_b][s - pb];
    } else if s >= hs[0].start_b + hs[0].count_b {
      ParentLineText(a, b, hs[1..], hs[0].start_a + hs[0].count_a, hs[0].start_b + hs[0].count_b, s);
    }
  }

  /** Target line s is one of the lines that a hunk put there. */
  ghost predicate InHunk(hs: seq<Hunk>, s: int)
  {
    exists k :: 0 <= k < |hs| && hs[k].start_b <= s < hs[k].start_b + hs[k].count_b
  }

  /** Target line s lies behind the first k hunks and before all others. */
  ghost predicate Behind(hs: seq<Hunk>, k: nat, s: int)
  {
    && k <= |hs|
    && (forall j :: 0 <= j < k ==> hs[j].start_b + hs[j].count_b <= s)
    && forall j :: k <= j < |hs| ==> s < hs[j].start_b
  }

  /** How far the lines behind the first k hunks of a diff have moved, from the parent to the target. */
  ghost function ShiftBehind(hs: seq<Hunk>, k: nat): int
    requires k <= |hs|
  {
    if k == 0 then 0 else hs[k - 1].start_b + hs[k - 1].count_b - (hs[k - 1].start_a + hs[k - 1].count_a)
  }

  lemma {:induction false} HunksFrom(a: File, b: File, hs: seq<Hunk>, pa: nat, pb: nat)
    requires ValidHunks(a, b, hs, pa, pb)
    ensures forall k :: 0 <= k < |hs| ==> pb <= hs[k].start_b
  {
    if hs != [] { HunksFrom(a, b, hs[1..], hs[0].start_a + hs[0].count_a, hs[0].start_b + hs[0].count_b); }
  }

  /** The hunks before and after line s, when the list is taken apart. */
  lemma {:induction false} ParentLineFrom(a: File, b: File, hs: seq<Hunk>, pa: nat, pb: nat, s: int) returns (k: nat)
    requires ValidHunks(a, b, hs, pa, pb) && pb <= s
    ensures var t := ParentLine(hs, pa, pb, s);
      && (t.None? <==> InHunk(hs, s))
      && (t.Some? ==> Behind(hs, k, s) && t.value == s - if k == 0 then pb - pa else ShiftBehind(hs, k))
  {
    k := 0;
    if hs != [] {
      assert hs == [hs[0]] + hs[1..];
      var pa', pb' := hs[0].start_a + hs[0].count_a, hs[0].start_b + hs[0].count_b;
      HunksFrom(a, b, hs[1..], pa', pb');
      assert forall j :: 1 <= j < |hs| ==> hs[j] == hs[1..][j - 1];
      InHunkHead(hs, s);
      if s >= pb' {
        var j := ParentLineFrom(a, b, hs[1..], pa', pb', s);
        k := j + 1;
      }
    }
  }

  lemma InHunkHead(hs: seq<Hunk>, s: int)
    requires hs != []
    ensures InHunk(hs, s) <==> (hs[0].start_b <= s < hs[0].start_b + hs[0].count_b) || InHunk(hs[1..], s)
  {
    if InHunk(hs[1..], s) {
      var i :| 0 <= i < |hs[1..]| && hs[1..][i].start_b <= s < hs[1..][i].start_b + hs[1..][i].count_b;
      assert hs[i + 1] == hs[1..][i];
    }
    if InHunk(hs, s) {
      var i :| 0 <= i < |hs| && hs[i].start_b <= s < hs[i].start_b + hs[i].count_b;
      assert i == 0 || hs[i] == hs[1..][i - 1];
    }
  }

  /**
   A line has a line of the parent if and only if no hunk put it there; and then it is the one that the hunks
   before it have moved it from.
   */
  lemma ParentLineIs(a: File, b: File, hs: seq<Hunk>, s: int)
    requires ValidHunks(a, b, hs, 0, 0) && 0 <= s
    ensures ParentLine(hs, 0, 0, s).None? <==> InHunk(hs, s)
    ensures !InHunk(hs, s) ==>
      exists k: nat :: Behind(hs, k, s) && ParentLine(hs, 0, 0, s) == Some(s - ShiftBehind(hs, k))
  {
    var k := ParentLineFrom(a, b, hs, 0, 0, s);
  }

  datatype History = History(
    parents: seq<seq<nat>>,                   // by commit
    rank: seq<nat>,                           // by commit: a parent has a smaller one
    date: seq<int>,                           // by commit
    commit: seq<nat>,                         // by origin
    file: seq<File>,                          // by origin
    chain: seq<seq<nat>>,                     // by commit: its origins, as they hang off commit->util
    image: File,                              // the final image being annotated
    diff: (File, File) -> seq<Hunk>,
    find: (nat, nat, nat) -> Option<nat>,     // pass, parent commit, origin
    copies: (nat, nat) -> seq<nat>,           // parent commit, origin
    parses: nat -> bool)                      // by commit
  {
    ghost predicate Valid()
    {
      && |rank| == |parents| == |date| == |chain|
      && |file| == |commit|
      && (forall o :: 0 <= o < |file| ==> |file[o]| <= INT_MAX)
      && (forall c, i :: 0 <= c < |parents| && 0 <= i < |parents[c]| ==>
            parents[c][i] < |parents| && rank[parents[c][i]] < rank[c])
      && (forall o :: 0 <= o < |commit| ==> commit[o] < |parents| && o in chain[commit[o]])
      && (forall c, i :: 0 <= c < |chain| && 0 <= i < |chain[c]| ==>
            chain[c][i] < |commit| && commit[chain[c][i]] == c)
      && (forall a, b :: ValidHunks(a, b, diff(a, b), 0, 0))
      && (forall pass: nat, p: nat, o: nat :: find(pass, p, o).Some? && p < |parents| ==>
            find(pass, p, o).value < |commit| && commit[find(pass, p, o).value] == p)
      && (forall p: nat, o: nat :: p < |parents| ==> forall i :: 0 <= i < |copies(p, o)| ==>
            copies(p, o)[i] < |commit| && commit[copies(p, o)[i]] == p)
    }
  }

  predicate IsAlnum(c: char) { '0' <= c <= '9' || 'a' <= c <= 'z' || 'A' <= c <= 'Z' }

  function AlnumIn(l: Line): nat
  {
    if l == [] then 0 else AlnumIn(l[..|l| - 1]) + if IsAlnum(l[|l| - 1]) then 1 else 0
  }

  /** The places of a line that hold one of the 62 letters and digits, by their codes. */
  ghost function AlnumPlaces(l: Line): set<nat>
  {
    set i: nat | i < |l| && (48 <= l[i] as int < 58 || 65 <= l[i] as int < 91 || 97 <= l[i] as int < 123)
  }

  /** What counts is how many places of the line hold a letter or a digit. */
  lemma {:induction false} AlnumIs(l: Line)
    ensures AlnumIn(l) == |AlnumPlaces(l)|
  {
    if l != [] {
      var n := |l| - 1;
      AlnumIs(l[..n]);
      assert AlnumPlaces(l) == AlnumPlaces(l[..n]) + if IsAlnum(l[n]) then {n} else {};
    } else {
      assert AlnumPlaces(l) == {};
    }
  }

  /** One more than the alphanumerics in the final lines lno .. lno+n. */
  function Score(image: File, lno: nat, n: nat): nat
    requires lno + n <= |image|
  {
    if n == 0 then 1 else AlnumIn(image[lno + n - 1]) + Score(image, lno, n - 1)
  }

  /**
   What holds of every entry anywhere: it has lines, they are lines of its suspect's file, these have the
   text of the final lines, and a cached score is the score.
   */
  ghost predicate Good(h: History, e: Entry)
  {
    && 0 < e.num_lines && e.suspect < |h.file|
    && 0 <= e.s_lno && e.s_lno + e.num_lines <= |h.file[e.suspect]|
    && e.lno + e.num_lines <= |h.image|
    && h.file[e.suspect][e.s_lno..e.s_lno + e.num_lines] == h.image[e.lno..e.lno + e.num_lines]
    && (e.score == 0 || e.score == Score(h.image, e.lno, e.num_lines))
  }

  ghost predicate AllGood(h: History, es: seq<Entry>) { forall e :: e in es ==> Good(h, e) }

  ghost predicate AllNaming(es: seq<Entry>, o: nat) { forall e :: e in es ==> e.suspect == o }

  class Scoreboard {
    const h: History
    const move_score: nat
    const copy_score: nat
    const no_whole_file_rename: bool
    const show_root: bool
    const too_old: nat -> bool             // by commit: revs->max_age is set and the commit is older
    const ancestors: nat -> set<nat>       // by commit: what mark_parents_uninteresting reaches

    var suspects: seq<seq<Entry>>          // by origin
    var refcnt: seq<int>                   // by origin
    var previous: seq<Option<nat>>         // by origin
    var guilty: seq<bool>                  // by origin
    var queue: seq<nat>                    // the commits waiting in the priority queue
    var ent: seq<Entry>                    // entries whose origin is final
    var uninteresting: set<nat>
    var num_commits: nat

    ghost predicate Shape()
      reads this
    {
      && h.Valid()
      && |suspects| == |refcnt| == |previous| == |guilty| == |h.commit|
    }

    method IncRef(o: nat)
      requires o < |refcnt|
      modifies this`refcnt
      ensures refcnt == old(refcnt)[o := old(refcnt)[o] + 1]
    {
      refcnt := refcnt[o := refcnt[o] + 1];
    }

    method DecRef(o: nat)
      requires o < |refcnt|
      modifies this`refcnt
      ensures refcnt == old(refcnt)[o := old(refcnt)[o] - 1]
    {
      refcnt := refcnt[o := refcnt[o] - 1];
    }
  }
}
