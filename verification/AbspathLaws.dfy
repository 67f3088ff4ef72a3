/**
 What a real path is (strbuf_realpath, git-2.15.0/abspath.c), said of paths as texts: what may be put in the place
 of a link, of . and of .., and how many links are followed.
 */
module AbspathLaws {

  import opened Abspath

  /** The real path of an absolute path when some links have been followed already. */
  ghost function RealAfter(fs: FileSystem, path: string, links: nat): Option<seq<string>>
    requires links <= MAXSYMLINKS + 1
  {
    Resolve(fs, [], Comps(path), EndsInSlash(Relative(path)), links)
  }

  /** A path whose first directories exist, and are no links, is resolved from there. */
  lemma {:induction false} FromSettled(fs: FileSystem, dir: seq<string>, k: nat, todo: seq<string>, slash: bool,
                                       links: nat)
    requires Settled(fs, dir) && k <= |dir| && links <= MAXSYMLINKS + 1
    ensures Resolve(fs, dir[..k], dir[k..] + todo, slash, links) == Resolve(fs, dir, todo, slash, links)
    decreases |dir| - k
  {
    hide Resolve, Settled, Join;
    if k == |dir| {
      assert dir[..k] == dir && dir[k..] + todo == todo;
    } else {
      SettledAt(fs, dir, k);
      assert dir[k..] + todo == [dir[k]] + (dir[k + 1..] + todo);
      ResolveStep(fs, dir[..k], dir[k], dir[k + 1..] + todo, slash, links);
      FromSettled(fs, dir, k + 1, todo, slash, links);
    }
  }

  lemma SettledAt(fs: FileSystem, dir: seq<string>, k: nat)
    requires Settled(fs, dir) && k < |dir|
    ensures Proper(dir[k]) && dir[..k] + [dir[k]] == dir[..k + 1] && fs(Join(dir[..k + 1])).Other?
  {
    hide Join;
    assert dir[..k] + [dir[k]] == dir[..k + 1];
  }

  /** An absolute path, from a settled directory on. */
  lemma AtDirectory(fs: FileSystem, dir: seq<string>, text: string, links: nat)
    requires Settled(fs, dir) && links <= MAXSYMLINKS + 1
    requires text == "" || text[0] == '/'
    ensures RealAfter(fs, Join(dir) + text, links)
      == Resolve(fs, dir, Comps(text), EndsInSlash(text), links)
  {
    hide Resolve, Settled, Join, Comps;
    var path := Join(dir) + text;
    assert forall i :: 0 <= i < |dir| ==> IsName(dir[i]) by { SettledNames(fs, dir); }
    CompsJoin(dir);
    CompsAppend(Join(dir), text);
    FromSettled(fs, dir, 0, Comps(text), EndsInSlash(Relative(path)), links);
    assert dir[..0] == [] && dir[0..] == dir;
    assert Relative(path) == Join(dir)[1..] + text;
    if text == "" { assert Relative(path) == Join(dir)[1..]; }
  }

  lemma SettledNames(fs: FileSystem, dir: seq<string>)
    requires Settled(fs, dir)
    ensures forall i :: 0 <= i < |dir| ==> IsName(dir[i])
  {
  }

  /** A relative path is one from the working directory; the empty path, and one from nowhere, have no real path. */
  lemma RelativePath(fs: FileSystem, cwd: Option<string>, path: string)
    requires cwd.Some? ==> Settled(fs, Comps(cwd.value))
    ensures path == "" ==> RealPath(fs, cwd, path) == None
    ensures path != "" && IsAbsolute(path) ==> RealPath(fs, cwd, path) == RealAfter(fs, path, 0)
    ensures path != "" && !IsAbsolute(path) ==>
      RealPath(fs, cwd, path) == if cwd.None? then None else RealAfter(fs, Join(Comps(cwd.value)) + "/" + path, 0)
  {
    hide Resolve, Comps, Join, Settled;
    if path != "" && !IsAbsolute(path) && cwd.Some? {
      var dir := Comps(cwd.value);
      AfterSlash(path);
      assert Join(dir) + "/" + path == Join(dir) + ("/" + path);
      AtDirectory(fs, dir, "/" + path, 0);
    }
  }

  /** Where the text of a link is put: in the place of the link, or of everything if it is absolute. */
  function Replaced(dir: seq<string>, text: string, rest: string): string {
    (if IsAbsolute(text) then text else Join(dir) + "/" + text) + rest
  }

  /**
   A path Join(dir)/c, with rest after it, where dir has been reached without a link: . is as if it was not
   there, and .. leads to the parent; the name of what is missing may only end the path; and a link stands for
   its text, in its place, one link more having been followed.
   */
  lemma PathLaw(fs: FileSystem, dir: seq<string>, c: string, rest: string, links: nat)
    requires Settled(fs, dir) && IsName(c) && (rest == "" || rest[0] == '/') && links <= MAXSYMLINKS
    ensures var r := RealAfter(fs, Join(dir) + "/" + c + rest, links);
      && (c == "." ==> r == RealAfter(fs, Join(dir) + rest, links))
      && (c == ".." ==> r == RealAfter(fs, Join(Parent(dir)) + rest, links))
      && (c != "." && c != ".." ==>
        match fs(Join(dir + [c]))
        case Missing => r == if rest == "" then Some(dir + [c]) else None
        case Failure => r == None
        case Other => r == RealAfter(fs, Join(dir + [c]) + rest, links)
        case Link(None) => r == None
        case Link(Some(text)) => text != "" ==> r == RealAfter(fs, Replaced(dir, text, rest), links + 1))
  {
    hide Resolve, Settled, Join, Comps;
    var slash := EndsInSlash(rest);
    NameThenRest(c, rest);
    assert Join(dir) + "/" + c + rest == Join(dir) + ("/" + c + rest);
    AtDirectory(fs, dir, "/" + c + rest, links);
    SettledParent(fs, dir);
    if c == "." {
      AtDirectory(fs, dir, rest, links);
      ResolveStep(fs, dir, c, Comps(rest), slash, links);
    } else if c == ".." {
      AtDirectory(fs, Parent(dir), rest, links);
      ResolveStep(fs, dir, c, Comps(rest), slash, links);
    } else {
      ResolveStep(fs, dir, c, Comps(rest), slash, links);
      Emptiness(rest);
      if fs(Join(dir + [c])).Other? {
        SettledChild(fs, dir, c);
        AtDirectory(fs, dir + [c], rest, links);
      }
      if fs(Join(dir + [c])).Link? && fs(Join(dir + [c])).text.Some? && fs(Join(dir + [c])).text.value != "" {
        LinkPlace(fs, dir, fs(Join(dir + [c])).text.value, rest, links + 1);
      }
    }
  }

  lemma NameThenRest(c: string, rest: string)
    requires IsName(c) && (rest == "" || rest[0] == '/')
    ensures Comps("/" + c + rest) == [c] + Comps(rest)
    ensures EndsInSlash("/" + c + rest) == EndsInSlash(rest)
  {
    hide *;
    AfterSlash(c + rest);
    assert "/" + c + rest == "/" + (c + rest);
    CompsAppend(c, rest);
    PlainName(c);
    LastOfText("/" + c, rest);
    NameEnds(c);
  }

  lemma LastOfText(a: string, b: string)
    ensures EndsInSlash(a + b) == EndsInSlash(if b == "" then a else b)
  {
    if b == "" { assert a + b == a; }
  }

  lemma NameEnds(c: string)
    requires IsName(c)
    ensures !EndsInSlash("/" + c) && !EndsInSlash("")
  {
  }

  /** The names of a path with the text of a link put in. */
  lemma LinkPlace(fs: FileSystem, dir: seq<string>, text: string, rest: string, links: nat)
    requires Settled(fs, dir) && text != "" && (rest == "" || rest[0] == '/') && links <= MAXSYMLINKS + 1
    ensures var slash := EndsInSlash(rest);
      RealAfter(fs, Replaced(dir, text, rest), links)
      == Resolve(fs, if IsAbsolute(text) then [] else dir, Comps(text) + Comps(rest),
                 if Comps(rest) == [] && !slash then EndsInSlash(Relative(text)) else slash, links)
  {
    hide Resolve, Settled, Join, Comps;
    Emptiness(rest);
    CompsAppend(text, rest);
    if IsAbsolute(text) {
      var path := text + rest;
      assert Relative(path) == Relative(text) + rest;
      if rest == "" { assert path == text; }
    } else {
      var tail := "/" + text + rest;
      assert Join(dir) + "/" + text + rest == Join(dir) + tail;
      AtDirectory(fs, dir, tail, links);
      assert Comps(tail) == Comps(text + rest) by { AfterSlash(text + rest); }
      if rest == "" {
        assert tail[|tail| - 1] == text[|text| - 1];
      } else {
        assert tail[|tail| - 1] == rest[|rest| - 1];
      }
    }
  }

  lemma AfterSlash(s: string)
    ensures forall t :: t == "/" + s ==> Comps(t) == Comps(s)
  {
    assert ("/" + s)[1..] == s;
  }

  /** Having followed fewer links never changes what a path resolves to. */
  lemma {:induction false} FewerLinks(fs: FileSystem, done: seq<string>, todo: seq<string>, slash: bool, links: nat)
    requires links <= MAXSYMLINKS && Resolve(fs, done, todo, slash, links + 1).Some?
    ensures Resolve(fs, done, todo, slash, links) == Resolve(fs, done, todo, slash, links + 1)
    decreases MAXSYMLINKS + 1 - links, |todo|
  {
    hide Join, Comps;
    if todo != [] {
      if todo[0] == "." {
        FewerLinks(fs, done, todo[1..], slash, links);
      } else if todo[0] == ".." {
        FewerLinks(fs, Parent(done), todo[1..], slash, links);
      } else {
        var st := fs(Join(done + [todo[0]]));
        if st.Other? {
          FewerLinks(fs, done + [todo[0]], todo[1..], slash, links);
        } else if st.Link? && st.text.Some? {
          var text := st.text.value;
          FewerLinks(fs, if IsAbsolute(text) then [] else done, Comps(text) + todo[1..],
                     if todo[1..] == [] && !slash then EndsInSlash(Relative(text)) else slash, links + 1);
        }
      }
    }
  }

  // ---------------------------------------------------------------------------------------------
  // How many links are followed

  function As(n: nat): string { if n == 0 then "" else "a" + As(n - 1) }

  lemma {:induction false} AsName(n: nat)
    ensures |As(n)| == n && forall i :: 0 <= i < n ==> As(n)[i] == 'a'
  {
    if n > 0 { AsName(n - 1); }
  }

  /** aa is a link to a, aaa to aa, and so on. */
  ghost predicate Chain(fs: FileSystem) {
    && fs("/a").Other?
    && forall n: nat :: 1 < n ==> fs("/" + As(n)) == Link(Some(As(n - 1)))
  }

  lemma {:induction false} ChainFrom(fs: FileSystem, n: nat, links: nat)
    requires Chain(fs) && 1 <= n && links <= 33
    ensures Resolve(fs, [], [As(n)], false, links) == if n - 1 + links <= 33 then Some(["a"]) else None
    decreases 33 - links
  {
    hide Comps;
    AsName(n);
    var s := As(n);
    var none: seq<string> := [];
    assert [s][1..] == none && none + [s] == [s];
    SlashedOne(s);
    assert Join([s]) == "/" + s;
    assert s != "." && s != ".." by { assert s[0] == 'a'; }
    ResolveStep(fs, none, s, none, false, links);
    assert [s] + none == [s];
    if n == 1 {
      assert s == "a" + As(0) && As(0) == "";
      assert s == "a" && "/" + s == "/a" && fs(Join(none + [s])).Other?;
      ResolveStep(fs, none + [s], s, none, false, links);
      assert none + [s] == ["a"] && [s] + none == [s];
    } else if links < 33 {
      AsName(n - 1);
      PlainName(As(n - 1));
      ChainFrom(fs, n - 1, links + 1);
      assert [As(n - 1)] + none == [As(n - 1)];
    }
  }

  lemma PlainName(c: string)
    requires IsName(c)
    ensures Comps(c) == [c] && !IsAbsolute(c) && !EndsInSlash(Relative(c))
  {
    WholeName(c);
    NextName(c);
    assert c[..|c|] == c && c[|c|..] == "";
  }

  /** Of a chain of links, 33 are followed, and no more. */
  lemma LinkLimit(fs: FileSystem, cwd: Option<string>, n: nat)
    requires Chain(fs) && 1 <= n
    ensures RealPath(fs, cwd, "/" + As(n)) == if n <= 34 then Some(["a"]) else None
  {
    hide Resolve, Comps;
    AsName(n);
    PlainName(As(n));
    AfterSlash(As(n));
    var p := "/" + As(n);
    assert p[1..] == As(n);
    ChainFrom(fs, n, 0);
  }
}
