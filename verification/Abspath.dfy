/**
 Resolving symbolic links (strbuf_realpath, git-2.15.0/abspath.c), for Unix paths.
 The specification works on lists of components; the code edits character buffers.
 */
module Abspath {

  datatype Option<+T> = None | Some(value: T)

  /** What lstat and readlink say: missing (ENOENT), another error, a link and its text if readable, or not a link. */
  datatype Stat = Missing | Failure | Link(text: Option<string>) | Other

  type FileSystem = string -> Stat

  const MAXSYMLINKS := 32

  // ---------------------------------------------------------------------------------------------
  // Components

  /** How far the name at the beginning reaches. */
  function NameLen(s: string): (n: nat)
    ensures n <= |s| && (forall i :: 0 <= i < n ==> s[i] != '/') && (n < |s| ==> s[n] == '/')
  {
    if s == "" || s[0] == '/' then 0 else 1 + NameLen(s[1..])
  }

  /** The names between the slashes. */
  function Comps(s: string): (cs: seq<string>)
    ensures forall i :: 0 <= i < |cs| ==> IsName(cs[i])
    decreases |s|
  {
    if s == "" then [] else
    if s[0] == '/' then Comps(s[1..]) else [s[..NameLen(s)]] + Comps(s[NameLen(s)..])
  }

  predicate IsName(c: string) {
    c != "" && forall i :: 0 <= i < |c| ==> c[i] != '/'
  }

  /** A name other than . and .. */
  predicate Proper(c: string) {
    IsName(c) && c != "." && c != ".."
  }

  predicate AllProper(cs: seq<string>) {
    forall i :: 0 <= i < |cs| ==> Proper(cs[i])
  }

  predicate EndsInSlash(s: string) {
    s != "" && s[|s| - 1] == '/'
  }

  /** The absolute path of a list of names. */
  function Join(cs: seq<string>): (s: string)
    ensures s != "" && s[0] == '/'
  {
    if cs == [] then "/" else Slashed(cs)
  }

  function Slashed(cs: seq<string>): (s: string)
    ensures cs != [] ==> s != "" && s[0] == '/'
  {
    if cs == [] then "" else "/" + cs[0] + Slashed(cs[1..])
  }

  lemma {:induction false} SlashedAppend(a: seq<string>, b: seq<string>)
    ensures Slashed(a + b) == Slashed(a) + Slashed(b)
  {
    if a == [] {
      assert a + b == b;
    } else {
      SlashedAppend(a[1..], b);
      assert (a + b)[1..] == a[1..] + b;
      Associates("/" + a[0], Slashed(a[1..]), Slashed(b));
    }
  }

  lemma SlashedOne(c: string)
    ensures Slashed([c]) == "/" + c
  {
    assert [c][1..] == [];
  }

  /** Names are found up to a slash, and after it. */
  lemma {:induction false} CompsAppend(a: string, b: string)
    requires b == "" || b[0] == '/'
    ensures Comps(a + b) == Comps(a) + Comps(b)
    decreases |a|
  {
    hide NameLen;
    if a == "" {
      assert a + b == b;
    } else if a[0] == '/' {
      assert (a + b)[1..] == a[1..] + b;
      CompsAppend(a[1..], b);
    } else {
      NameLenAppend(a, b);
      var n := NameLen(a);
      CompsAppend(a[n..], b);
      NextName(a);
      NextName(a + b);
      assert (a + b)[..n] == a[..n] && (a + b)[n..] == a[n..] + b;
    }
  }

  lemma NextName(s: string)
    requires s != "" && s[0] != '/'
    ensures 0 < NameLen(s) <= |s| && Comps(s) == [s[..NameLen(s)]] + Comps(s[NameLen(s)..])
  {
  }

  lemma {:induction false} NameLenAppend(a: string, b: string)
    requires b == "" || b[0] == '/'
    ensures NameLen(a + b) == NameLen(a)
  {
    if a == "" {
      assert a + b == b;
    } else if a[0] != '/' {
      assert (a + b)[1..] == a[1..] + b;
      NameLenAppend(a[1..], b);
    }
  }

  lemma {:induction false} WholeName(c: string)
    requires IsName(c)
    ensures NameLen(c) == |c|
  {
    if |c| > 1 { WholeName(c[1..]); }
  }

  /** The names of a joined path are the names it was joined from. */
  lemma {:induction false} CompsSlashed(cs: seq<string>)
    requires forall i :: 0 <= i < |cs| ==> IsName(cs[i])
    ensures Comps(Slashed(cs)) == cs
  {
    if cs != [] {
      CompsSlashed(cs[1..]);
      var s := Slashed(cs);
      assert s[1..] == cs[0] + Slashed(cs[1..]);
      CompsAppend(cs[0], Slashed(cs[1..]));
      WholeName(cs[0]);
      assert cs[0][..|cs[0]|] == cs[0] && cs[0][|cs[0]|..] == "";
    }
  }

  lemma CompsJoin(cs: seq<string>)
    requires forall i :: 0 <= i < |cs| ==> IsName(cs[i])
    ensures Comps(Join(cs)[1..]) == cs && Comps(Join(cs)) == cs && !EndsInSlash(Join(cs)[1..])
  {
    if cs == [] {
      assert Join(cs)[1..] == "";
    } else {
      CompsSlashed(cs);
      var n := |cs| - 1;
      SlashedAppend(cs[..n], [cs[n]]);
      SlashedOne(cs[n]);
      assert cs == cs[..n] + [cs[n]];
      assert Join(cs)[|Join(cs)| - 1] == cs[n][|cs[n]| - 1];
    }
  }

  // ---------------------------------------------------------------------------------------------
  // What a path resolves to

  /**
   From the directory done, through the names todo; slash says that the text after the last name is not
   empty.  The last name need not exist, but then nothing may follow it.  A link is replaced by the names
   of its text, from the root or from where it stands; up to 33 links are followed.
   */
  ghost function Resolve(fs: FileSystem, done: seq<string>, todo: seq<string>, slash: bool,
                         links: nat): Option<seq<string>>
    requires links <= MAXSYMLINKS + 1
    decreases MAXSYMLINKS + 1 - links, |todo|
  {
    if todo == [] then Some(done)
    else if todo[0] == "." then Resolve(fs, done, todo[1..], slash, links)
    else if todo[0] == ".." then Resolve(fs, Parent(done), todo[1..], slash, links)
    else
      match fs(Join(done + [todo[0]]))
      case Missing => if todo[1..] == [] && !slash then Some(done + [todo[0]]) else None
      case Failure => None
      case Other => Resolve(fs, done + [todo[0]], todo[1..], slash, links)
      case Link(None) => None
      case Link(Some(text)) =>
        if links > MAXSYMLINKS then None else
        Resolve(fs, if IsAbsolute(text) then [] else done, Comps(text) + todo[1..],
                if todo[1..] == [] && !slash then EndsInSlash(Relative(text)) else slash, links + 1)
  }

  function Parent(cs: seq<string>): seq<string> {
    if cs == [] then [] else cs[..|cs| - 1]
  }

  predicate IsAbsolute(path: string) {
    path != "" && path[0] == '/'
  }

  /** What get_root_part leaves of a path. */
  function Relative(path: string): string {
    if IsAbsolute(path) then path[1..] else path
  }

  /** The real path, or None for every error. */
  ghost function RealPath(fs: FileSystem, cwd: Option<string>, path: string): Option<seq<string>> {
    if path == "" || (!IsAbsolute(path) && cwd.None?) then None else
    Resolve(fs, if IsAbsolute(path) then [] else Comps(cwd.value), Comps(path), EndsInSlash(Relative(path)), 0)
  }

  /** Every directory on the way exists and is not a link. */
  ghost predicate Settled(fs: FileSystem, cs: seq<string>) {
    AllProper(cs) && forall k :: 0 < k <= |cs| ==> fs(Join(cs[..k])).Other?
  }

  /** Like that, but the last name may be missing. */
  ghost predicate Real(fs: FileSystem, cs: seq<string>) {
    && AllProper(cs)
    && (cs != [] ==> Settled(fs, cs[..|cs| - 1]) && (fs(Join(cs)).Other? || fs(Join(cs)).Missing?))
  }

  lemma SettledParent(fs: FileSystem, cs: seq<string>)
    requires Settled(fs, cs)
    ensures Settled(fs, Parent(cs)) && Real(fs, cs)
  {
    if cs != [] {
      var p := Parent(cs);
      forall k | 0 < k <= |p| ensures fs(Join(p[..k])).Other? { assert p[..k] == cs[..k]; }
      assert cs[..|cs|] == cs;
    }
  }

  lemma SettledChild(fs: FileSystem, cs: seq<string>, c: string)
    requires Settled(fs, cs) && Proper(c) && fs(Join(cs + [c])).Other?
    ensures Settled(fs, cs + [c])
  {
    var d := cs + [c];
    forall k | 0 < k <= |d| ensures fs(Join(d[..k])).Other? {
      if k <= |cs| { assert d[..k] == cs[..k]; } else { assert d[..k] == d; }
    }
  }

  lemma RealChild(fs: FileSystem, cs: seq<string>, c: string)
    requires Settled(fs, cs) && Proper(c) && fs(Join(cs + [c])).Missing?
    ensures Real(fs, cs + [c])
  {
    assert (cs + [c])[..|cs|] == cs;
  }

  /** What resolves is real: no empty name, no . or .., and no link on the way, the last name included. */
  lemma {:induction false} ResolvesToReal(fs: FileSystem, done: seq<string>, todo: seq<string>, slash: bool, links: nat)
    requires links <= MAXSYMLINKS + 1 && Settled(fs, done) && forall i :: 0 <= i < |todo| ==> IsName(todo[i])
    ensures Resolve(fs, done, todo, slash, links).Some? ==> Real(fs, Resolve(fs, done, todo, slash, links).value)
    decreases MAXSYMLINKS + 1 - links, |todo|
  {
    hide Join, Comps, EndsInSlash, Settled, Real;
    SettledParent(fs, done);
    if todo != [] {
      var rest, child := todo[1..], done + [todo[0]];
      if todo[0] == "." {
        ResolvesToReal(fs, done, rest, slash, links);
      } else if todo[0] == ".." {
        ResolvesToReal(fs, Parent(done), rest, slash, links);
      } else if fs(Join(child)).Missing? {
        RealChild(fs, done, todo[0]);
      } else if fs(Join(child)).Other? {
        SettledChild(fs, done, todo[0]);
        ResolvesToReal(fs, child, rest, slash, links);
      } else if fs(Join(child)).Link? && fs(Join(child)).text.Some? && links <= MAXSYMLINKS {
        var text := fs(Join(child)).text.value;
        RootSettled(fs);
        ResolvesToReal(fs, if IsAbsolute(text) then [] else done, Comps(text) + rest,
                       if rest == [] && !slash then EndsInSlash(Relative(text)) else slash, links + 1);
      }
    }
  }

  lemma RootSettled(fs: FileSystem)
    ensures Settled(fs, [])
  {
  }

  /** A real path resolves to itself, without following a link. */
  lemma {:induction false} RealIsFixed(fs: FileSystem, cs: seq<string>, k: nat, links: nat)
    requires Real(fs, cs) && k <= |cs| && links <= MAXSYMLINKS + 1
    ensures Resolve(fs, cs[..k], cs[k..], false, links) == Some(cs)
    decreases |cs| - k
  {
    hide *;
    if k == |cs| {
      assert cs[..k] == cs && cs[k..] == [];
      ResolveNil(fs, cs, links);
    } else {
      NextDir(fs, cs, k);
      assert cs[k..] == [cs[k]] + cs[k + 1..];
      ResolveStep(fs, cs[..k], cs[k], cs[k + 1..], false, links);
      RealIsFixed(fs, cs, k + 1, links);
      if k + 1 == |cs| { assert cs[..k + 1] == cs && cs[k + 1..] == []; }
    }
  }

  /** The next directory on the way of a real path. */
  lemma NextDir(fs: FileSystem, cs: seq<string>, k: nat)
    requires Real(fs, cs) && k < |cs|
    ensures cs[k] != "." && cs[k] != ".." && cs[..k] + [cs[k]] == cs[..k + 1]
    ensures fs(Join(cs[..k + 1])).Other? || (k + 1 == |cs| && fs(Join(cs[..k + 1])).Missing?)
  {
    hide Join;
    assert Proper(cs[k]);
    if k + 1 == |cs| { assert cs[..k + 1] == cs; } else { assert cs[..|cs| - 1][..k + 1] == cs[..k + 1]; }
  }

  /** The law of real paths: the result is real, and is its own real path. */
  lemma RealPathIsReal(fs: FileSystem, cwd: Option<string>, path: string)
    requires cwd.Some? ==> Settled(fs, Comps(cwd.value))
    requires RealPath(fs, cwd, path).Some?
    ensures var cs := RealPath(fs, cwd, path).value;
      Real(fs, cs) && RealPath(fs, cwd, Join(cs)) == Some(cs)
  {
    hide Resolve, Join, Settled, Real;
    RootSettled(fs);
    ResolvesToReal(fs, if IsAbsolute(path) then [] else Comps(cwd.value), Comps(path), EndsInSlash(Relative(path)), 0);
    var cs := RealPath(fs, cwd, path).value;
    RealNames(fs, cs);
    CompsJoin(cs);
    RealIsFixed(fs, cs, 0, 0);
    assert cs[..0] == [] && cs[0..] == cs;
  }

  lemma RealNames(fs: FileSystem, cs: seq<string>)
    requires Real(fs, cs)
    ensures forall i :: 0 <= i < |cs| ==> IsName(cs[i])
  {
  }

  // ---------------------------------------------------------------------------------------------
  // The code

  /** Where the part of a path begins that may be stripped. */
  function FirstComponent(path: string): nat {
    if IsAbsolute(path) then 1 else 0
  }

  /** r is the path without its last component, which starts at m, and the slashes before that; the root stays. */
  ghost predicate StrippedAt(path: string, r: string, m: nat) {
    && FirstComponent(path) <= |r| <= m <= |path| && r == path[..|r|]
    && (forall k :: m <= k < |path| ==> path[k] != '/') && (m == FirstComponent(path) || path[m - 1] == '/')
    && (forall k :: |r| <= k < m ==> path[k] == '/') && (|r| == FirstComponent(path) || r[|r| - 1] != '/')
  }

  /** strip_last_component, on any path */
  method StripLastComponent(path: string) returns (r: string, ghost m: nat)
    ensures StrippedAt(path, r, m)
  {
    var offset := if path != "" && path[0] == '/' then 1 else 0;
    var len := |path|;
    while offset < len && path[len - 1] != '/'
      invariant offset <= len <= |path| && forall k :: len <= k < |path| ==> path[k] != '/'
    {
      len := len - 1;
    }
    m := len;
    while offset < len && path[len - 1] == '/'
      invariant offset <= len <= m && forall k :: len <= k < m ==> path[k] == '/'
    {
      len := len - 1;
    }
    r := path[..len];
  }

  /** Stripping a joined path leaves its parent, joined; the root is its own parent. */
  lemma StrippedJoin(cs: seq<string>, r: string, m: nat)
    requires StrippedAt(Join(cs), r, m) && forall i :: 0 <= i < |cs| ==> IsName(cs[i])
    ensures r == Join(Parent(cs))
  {
    hide Slashed;
    var path := Join(cs);
    LastName(cs);
    if cs == [] {
      assert r == path;
    } else {
      var keep := |Slashed(Parent(cs))|;
      assert path[keep] == '/' && path[keep + 1..] == cs[|cs| - 1];
      forall k | keep < k < |path| ensures path[k] != '/' { assert path[k] == cs[|cs| - 1][k - keep - 1]; }
      assert m == keep + 1;
      if Parent(cs) == [] {
        NoneSlashed();
        assert r == "/";
      } else {
        assert path[keep - 1] == Slashed(Parent(cs))[keep - 1];
        assert |r| == keep && r == Slashed(Parent(cs));
      }
    }
  }

  lemma NoneSlashed()
    ensures Slashed([]) == ""
  {
  }

  /** A joined path ends in a slash and its last name; the part before ends in a name, or is empty. */
  lemma LastName(cs: seq<string>)
    requires forall i :: 0 <= i < |cs| ==> IsName(cs[i])
    ensures cs != [] ==> Join(cs) == Slashed(Parent(cs)) + "/" + cs[|cs| - 1]
    ensures cs != [] ==> IsName(cs[|cs| - 1])
    ensures Parent(cs) != [] ==> Slashed(Parent(cs)) == Join(Parent(cs)) && |Slashed(Parent(cs))| > 1
    ensures Parent(cs) != [] ==> Slashed(Parent(cs))[|Slashed(Parent(cs))| - 1] != '/'
  {
    if cs != [] {
      LastOf(cs);
      var p := Parent(cs);
      if p != [] { LastOf(p); }
    }
  }

  lemma LastOf(cs: seq<string>)
    requires cs != []
    ensures Slashed(cs) == Slashed(Parent(cs)) + "/" + cs[|cs| - 1]
  {
    hide Slashed;
    SlashedLast(cs[..|cs| - 1], cs[|cs| - 1]);
    assert cs[..|cs| - 1] + [cs[|cs| - 1]] == cs;
  }

  lemma SlashedLast(p: seq<string>, c: string)
    ensures Slashed(p + [c]) == Slashed(p) + "/" + c
  {
    hide Slashed;
    SlashedAppend(p, [c]);
    SlashedOne(c);
    Associates(Slashed(p), "/", c);
  }

  lemma Associates(a: string, b: string, c: string)
    ensures a + (b + c) == a + b + c
  {
  }

  /** get_next_component: the next name, empty if there is none, and what comes after it. */
  method GetNextComponent(remaining: string) returns (next: string, rest: string)
    ensures next == "" ==> Comps(remaining) == [] && rest == ""
    ensures next != "" ==>
      IsName(next) && Comps(remaining) == [next] + Comps(rest) && EndsInSlash(rest) == EndsInSlash(remaining)
    ensures remaining != "" ==> |rest| < |remaining|
  {
    hide Comps;
    var start := 0;
    while start < |remaining| && remaining[start] == '/'
      invariant 0 <= start <= |remaining| && Comps(remaining[start..]) == Comps(remaining)
    {
      SkipSlash(remaining, start);
      start := start + 1;
    }
    var end := start;
    while end < |remaining| && remaining[end] != '/'
      invariant start <= end <= |remaining|
      invariant forall i :: start <= i < end ==> remaining[i] != '/'
    {
      end := end + 1;
    }
    next := remaining[start..end];
    rest := remaining[end..];
    NameFound(remaining, start, end);
  }

  lemma SkipSlash(s: string, start: nat)
    requires start < |s| && s[start] == '/'
    ensures Comps(s[start..]) == Comps(s[start + 1..])
  {
    assert s[start..][1..] == s[start + 1..];
  }

  lemma NameFound(s: string, start: nat, end: nat)
    requires start <= end <= |s| && (forall i :: start <= i < end ==> s[i] != '/') && (end < |s| ==> s[end] == '/')
    requires start < |s| ==> s[start] != '/'
    ensures start == end ==> end == |s| && Comps(s[start..]) == []
    ensures start < end ==> IsName(s[start..end]) && Comps(s[start..]) == [s[start..end]] + Comps(s[end..])
  {
    NameEnds(s[start..], end - start);
    assert s[start..][..end - start] == s[start..end] && s[start..][end - start..] == s[end..];
  }

  lemma {:induction false} NameEnds(s: string, n: nat)
    requires n <= |s| && (forall i :: 0 <= i < n ==> s[i] != '/') && (n < |s| ==> s[n] == '/')
    ensures NameLen(s) == n
  {
    if n > 0 { NameEnds(s[1..], n - 1); }
  }

  /** get_root_part */
  method GetRootPart(remaining: string) returns (resolved: string, rest: string)
    ensures resolved == (if IsAbsolute(remaining) then "/" else "") && rest == Relative(remaining)
  {
    var offset := if remaining != "" && remaining[0] == '/' then 1 else 0;
    resolved := remaining[..offset];
    rest := remaining[offset..];
  }

  /**
   strbuf_realpath: resolves component by component, a link by putting its text in front of what remains.
   It computes exactly the real path; from a canonical working directory the result is absolute, goes
   through no link, and resolves to itself.
   */
  method StrbufRealpath(fs: FileSystem, cwd: Option<string>, path: string) returns (resolved: Option<string>)
    requires cwd.Some? ==> cwd.value == Join(Comps(cwd.value))
    ensures resolved == (match RealPath(fs, cwd, path) case None => None case Some(cs) => Some(Join(cs)))
    ensures resolved.Some? && (cwd.Some? ==> Settled(fs, Comps(cwd.value))) ==>
      Real(fs, Comps(resolved.value)) && RealPath(fs, cwd, resolved.value) == Some(Comps(resolved.value))
  {
    hide Resolve, Join, Settled, Real, Comps, EndsInSlash, RealPath;
    resolved := Walk(fs, cwd, path);
    if resolved.Some? && (cwd.Some? ==> Settled(fs, Comps(cwd.value))) {
      RealPathIsReal(fs, cwd, path);
      RealNames(fs, RealPath(fs, cwd, path).value);
      CompsJoin(RealPath(fs, cwd, path).value);
    }
  }

  method Walk(fs: FileSystem, cwd: Option<string>, path: string) returns (retval: Option<string>)
    requires cwd.Some? ==> cwd.value == Join(Comps(cwd.value))
    ensures retval == (match RealPath(fs, cwd, path) case None => None case Some(cs) => Some(Join(cs)))
  {
    hide Resolve, Join, Comps, EndsInSlash, IsName;
    if path == "" {
      return None;
    }
    var resolved, remaining := GetRootPart(path);
    ghost var done: seq<string> := [];
    if resolved == "" {
      if cwd.None? {
        return None;
      }
      resolved := cwd.value;
      done := Comps(cwd.value);
    }
    RootJoin();
    RelativeComps(path);
    var numSymlinks := 0;
    while remaining != ""
      invariant 0 <= numSymlinks <= MAXSYMLINKS + 1 && resolved == Join(done)
      invariant forall i :: 0 <= i < |done| ==> IsName(done[i])
      invariant Resolve(fs, done, Comps(remaining), EndsInSlash(remaining), numSymlinks) == RealPath(fs, cwd, path)
      decreases MAXSYMLINKS + 1 - numSymlinks, |remaining|
    {
      ghost var slash := EndsInSlash(remaining);
      var next;
      next, remaining := GetNextComponent(remaining);
      ResolveStep(fs, done, next, Comps(remaining), slash, numSymlinks);
      Emptiness(remaining);
      ResolveNil(fs, done, numSymlinks);
      if next == "" || next == "." {
        continue;
      }
      if next == ".." {
        ghost var m;
        resolved, m := StripLastComponent(resolved);
        StrippedJoin(done, resolved, m);
        done := Parent(done);
        continue;
      }
      ghost var child := done + [next];
      Extends(done, next);
      if resolved[|resolved| - 1] != '/' {
        resolved := resolved + "/";
      }
      resolved := resolved + next;
      var st := fs(resolved);
      if st.Missing? || st.Failure? {
        if st.Failure? || remaining != "" {
          return None;
        }
        done := child;
        ResolveNil(fs, done, numSymlinks);
      } else if st.Link? {
        if numSymlinks > MAXSYMLINKS {
          return None;
        }
        numSymlinks := numSymlinks + 1;
        if st.text.None? {
          return None;
        }
        resolved, remaining := FollowLink(resolved, st.text.value, remaining, done, child);
        if IsAbsolute(st.text.value) { done := []; }
      } else {
        done := child;
      }
    }
    Emptiness(remaining);
    ResolveNil(fs, done, numSymlinks);
    retval := Some(resolved);
  }

  /** A link: the walk goes on from the root, or from the link's directory, through the text and what remained. */
  method FollowLink(link: string, text: string, remaining: string, ghost done: seq<string>, ghost child: seq<string>)
    returns (resolved: string, rest: string)
    requires link == Join(child) && child != [] && Parent(child) == done
    requires forall i :: 0 <= i < |child| ==> IsName(child[i])
    ensures resolved == Join(if IsAbsolute(text) then [] else done)
    ensures Comps(rest) == Comps(text) + Comps(remaining)
    ensures EndsInSlash(rest) == if remaining != "" then EndsInSlash(remaining) else EndsInSlash(Relative(text))
  {
    hide Join, Comps, EndsInSlash, IsName;
    var symlink := text;
    RelativeComps(symlink);
    RootJoin();
    if IsAbsolute(symlink) {
      resolved, symlink := GetRootPart(symlink);
    } else {
      ghost var m;
      resolved, m := StripLastComponent(link);
      StrippedJoin(child, resolved, m);
    }
    CompsAppend(symlink, if remaining != "" then "/" + remaining else "");
    AddSlash(symlink, remaining);
    if remaining != "" {
      symlink := symlink + "/" + remaining;
    }
    rest := symlink;
  }

  lemma ResolveNil(fs: FileSystem, done: seq<string>, links: nat)
    requires links <= MAXSYMLINKS + 1
    ensures Resolve(fs, done, [], false, links) == Some(done)
  {
  }

  lemma RootJoin()
    ensures Join([]) == "/"
  {
  }

  lemma RelativeComps(path: string)
    ensures Comps(Relative(path)) == Comps(path)
  {
  }

  ghost function Followed(fs: FileSystem, done: seq<string>, text: Option<string>, rest: seq<string>, slash: bool,
                          links: nat): Option<seq<string>>
    requires links <= MAXSYMLINKS + 1
  {
    if text.None? || links > MAXSYMLINKS then None else
    Resolve(fs, if IsAbsolute(text.value) then [] else done, Comps(text.value) + rest,
            if rest == [] && !slash then EndsInSlash(Relative(text.value)) else slash, links + 1)
  }

  /** One component of the specification. */
  lemma ResolveStep(fs: FileSystem, done: seq<string>, next: string, rest: seq<string>, slash: bool, links: nat)
    requires links <= MAXSYMLINKS + 1
    ensures Resolve(fs, done, [], slash, links) == Some(done)
    ensures next == "." ==> Resolve(fs, done, [next] + rest, slash, links) == Resolve(fs, done, rest, slash, links)
    ensures next == ".." ==>
      Resolve(fs, done, [next] + rest, slash, links) == Resolve(fs, Parent(done), rest, slash, links)
    ensures next != "." && next != ".." && fs(Join(done + [next])).Missing? ==>
      Resolve(fs, done, [next] + rest, slash, links) == if rest == [] && !slash then Some(done + [next]) else None
    ensures next != "." && next != ".." && fs(Join(done + [next])).Failure? ==>
      Resolve(fs, done, [next] + rest, slash, links) == None
    ensures next != "." && next != ".." && fs(Join(done + [next])).Other? ==>
      Resolve(fs, done, [next] + rest, slash, links) == Resolve(fs, done + [next], rest, slash, links)
    ensures next != "." && next != ".." && fs(Join(done + [next])).Link? ==>
      Resolve(fs, done, [next] + rest, slash, links)
        == Followed(fs, done, fs(Join(done + [next])).text, rest, slash, links)
  {
    hide Join, Comps, EndsInSlash;
    assert ([next] + rest)[1..] == rest;
  }

  /** A text is empty if and only if it has no name and no slash at its end. */
  lemma Emptiness(s: string)
    ensures s == "" <==> Comps(s) == [] && !EndsInSlash(s)
  {
    if s != "" && !EndsInSlash(s) { HasName(s); }
  }

  lemma {:induction false} HasName(s: string)
    requires s != "" && s[|s| - 1] != '/'
    ensures Comps(s) != []
    decreases |s|
  {
    if s[0] == '/' { HasName(s[1..]); }
  }

  lemma Extends(done: seq<string>, next: string)
    requires IsName(next) && forall i :: 0 <= i < |done| ==> IsName(done[i])
    ensures Join(done + [next]) == (if Join(done)[|Join(done)| - 1] != '/' then Join(done) + "/" else Join(done)) + next
  {
    SlashedAppend(done, [next]);
    SlashedOne(next);
    if done != [] { LastOf(done); }
  }

  lemma AddSlash(a: string, b: string)
    ensures b != "" ==>
      a + "/" + b == a + ("/" + b) && EndsInSlash(a + "/" + b) == EndsInSlash(b) && Comps("/" + b) == Comps(b)
    ensures Comps("") == [] && a + "" == a
  {
    assert ("/" + b)[1..] == b;
    if b != "" { assert (a + "/" + b)[|a + "/" + b| - 1] == b[|b| - 1]; }
  }
}
