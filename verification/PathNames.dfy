/**
 Byte strings as path names: the order of the index, prefixes, and first components
 (memcmp order, strchr(path, '/') in git-2.15.0/cache-tree.c).
 */
module PathNames {

  /** memcmp, a proper prefix first. */
  predicate Lt(a: string, b: string)
  {
    b != [] && (a == [] || a[0] < b[0] || (a[0] == b[0] && Lt(a[1..], b[1..])))
  }

  lemma {:induction false} LtIrreflexive(a: string)
    ensures !Lt(a, a)
  {
    if a != [] { LtIrreflexive(a[1..]); }
  }

  lemma {:induction false} LtTransitive(a: string, b: string, c: string)
    requires Lt(a, b) && Lt(b, c)
    ensures Lt(a, c)
  {
    if a != [] && a[0] == b[0] && b[0] == c[0] { LtTransitive(a[1..], b[1..], c[1..]); }
  }

  lemma {:induction false} LtTotal(a: string, b: string)
    ensures Lt(a, b) || a == b || Lt(b, a)
  {
    if a != [] && b != [] && a[0] == b[0] {
      LtTotal(a[1..], b[1..]);
      if a[1..] == b[1..] { assert a == [a[0]] + a[1..] && b == [b[0]] + b[1..]; }
    }
  }

  predicate HasPrefix(s: string, p: string) { |p| <= |s| && s[..|p|] == p }

  /** s lies strictly below p: p is a proper prefix. */
  predicate Below(s: string, p: string) { |p| < |s| && s[..|p|] == p }

  lemma {:induction false} PrefixHead(s: string, p: string)
    requires p != []
    ensures HasPrefix(s, p) <==> s != [] && s[0] == p[0] && HasPrefix(s[1..], p[1..])
  {
    if |p| <= |s| {
      assert s[..|p|] == [s[0]] + s[1..][..|p| - 1];
      assert p == [p[0]] + p[1..];
    }
  }

  /** Between two names with a prefix, all names have it. */
  lemma {:induction false} Between(a: string, b: string, c: string, p: string)
    requires Lt(a, b) && Lt(b, c) && HasPrefix(a, p) && HasPrefix(c, p)
    ensures HasPrefix(b, p)
  {
    if p != [] {
      PrefixHead(a, p); PrefixHead(b, p); PrefixHead(c, p);
      Between(a[1..], b[1..], c[1..], p[1..]);
    }
  }

  /** Removing a common prefix keeps the order. */
  lemma {:induction false} LtStrip(a: string, b: string, k: nat)
    requires k <= |a| && k <= |b| && a[..k] == b[..k]
    ensures Lt(a, b) <==> Lt(a[k..], b[k..])
  {
    if k == 0 {
      assert a[0..] == a && b[0..] == b;
    } else {
      assert a[..k][0] == b[..k][0];
      assert a[1..][..k - 1] == a[..k][1..] && b[1..][..k - 1] == b[..k][1..];
      LtStrip(a[1..], b[1..], k - 1);
      assert a[1..][k - 1..] == a[k..] && b[1..][k - 1..] == b[k..];
    }
  }

  /** strchr(s, '/'), or the length of s. */
  function Slash(s: string): (k: nat)
    ensures k <= |s|
    ensures k < |s| ==> s[k] == '/'
    ensures '/' !in s[..k]
  {
    if s == [] || s[0] == '/' then 0
    else
      var k := Slash(s[1..]);
      assert s[..k + 1] == [s[0]] + s[1..][..k];
      k + 1
  }

  predicate HasSlash(s: string) { Slash(s) < |s| }

  /** The first component of a name with a slash. */
  function First(s: string): (c: string)
    requires HasSlash(s)
    ensures '/' !in c && Below(s, c)
    ensures s == c + "/" + s[|c| + 1..]
  {
    assert s == s[..Slash(s)] + "/" + s[Slash(s) + 1..];
    s[..Slash(s)]
  }

  lemma {:induction false} SlashAt(c: string, rest: string)
    requires '/' !in c
    ensures Slash(c + "/" + rest) == |c|
  {
    var s := c + "/" + rest;
    if c != [] {
      assert s[0] == c[0] && c[0] in c;
      assert s[1..] == c[1..] + "/" + rest;
      SlashAt(c[1..], rest);
    }
  }

  /** A name has prefix c/ exactly if c is its first component. */
  lemma FirstIs(s: string, c: string)
    requires '/' !in c
    ensures HasPrefix(s, c + "/") <==> HasSlash(s) && First(s) == c
  {
    if HasPrefix(s, c + "/") {
      assert s == c + "/" + s[|c| + 1..] by { assert s == s[..|c| + 1] + s[|c| + 1..]; }
      SlashAt(c, s[|c| + 1..]);
      assert s[..|c|] == c;
    }
    if HasSlash(s) && First(s) == c {
      assert s == c + "/" + s[|c| + 1..];
      assert s[..|c| + 1] == c + "/";
    }
  }

  /** subtree_name_cmp as a strict order: by length, then by bytes. */
  predicate NameLt(a: string, b: string) { |a| < |b| || (|a| == |b| && Lt(a, b)) }

  lemma NameLtTransitive(a: string, b: string, c: string)
    requires NameLt(a, b) && NameLt(b, c)
    ensures NameLt(a, c) && a != c
  {
    if |a| == |b| && |b| == |c| { LtTransitive(a, b, c); }
    if a == c {
      LtIrreflexive(a);
    }
  }

  lemma NameLtTotal(a: string, b: string)
    ensures NameLt(a, b) || a == b || NameLt(b, a)
    ensures !(NameLt(a, b) && NameLt(b, a)) && !NameLt(a, a)
  {
    LtTotal(a, b);
    LtIrreflexive(a);
    if Lt(a, b) && Lt(b, a) { LtTransitive(a, b, a); }
  }

  /** subtree_name_cmp */
  method SubtreeNameCmp(one: string, two: string) returns (cmp: int)
    ensures cmp < 0 <==> NameLt(one, two)
    ensures cmp == 0 <==> one == two
    ensures cmp > 0 <==> NameLt(two, one)
  {
    NameLtTotal(one, two);
    if |one| < |two| { return -1; }
    if |two| < |one| { return 1; }
    var i := 0;
    while i < |one| && one[i] == two[i]
      invariant i <= |one| && one[..i] == two[..i]
    {
      assert one[..i + 1] == one[..i] + [one[i]] && two[..i + 1] == two[..i] + [two[i]];
      i := i + 1;
    }
    LtStrip(one, two, i);
    LtStrip(two, one, i);
    if i == |one| {
      assert one == one[..i] && two == two[..i];
      return 0;
    }
    assert one[i..][0] == one[i] && two[i..][0] == two[i];
    return if one[i] < two[i] then -1 else 1;
  }
}
