/**
 * The POSIX `os.path` functions the copy tool calls: `join`, `basename`,
 * `dirname`, `normpath`, and the nested joins by which `os.walk` names
 * the directories it visits.
 */
module PosixPath {
  import opened PyStr

  /** A name as one directory entry holds it: not empty, no `/`. */
  predicate ValidName(n: string) {
    n != [] && '/' !in n
  }

  /** The separator `join` puts after `a` before a relative name. */
  function Sep(a: string): string {
    if a == [] || a[|a| - 1] == '/' then "" else "/"
  }

  /** `os.path.join(a, b)`: an absolute `b` replaces `a`; otherwise `b` is
    * appended, with a `/` unless `a` is empty or already ends in one. */
  function Join(a: string, b: string): (r: string)
    ensures b != [] && b[0] == '/' ==> r == b
    ensures (b == [] || b[0] != '/') ==> r == a + Sep(a) + b
  {
    if b != [] && b[0] == '/' then b
    else if a == [] || a[|a| - 1] == '/' then a + b
    else a + "/" + b
  }

  /** `p.rfind('/') + 1`: where the last path component starts. */
  function TailStart(p: string): (i: nat)
    ensures i <= |p|
    ensures '/' !in p[i..]
    ensures i > 0 ==> p[i - 1] == '/'
  {
    if p == [] then 0
    else if p[|p| - 1] == '/' then |p|
    else
      var i := TailStart(p[..|p| - 1]);
      assert p[i..] == p[..|p| - 1][i..] + [p[|p| - 1]];
      i
  }

  /** `os.path.basename(p)`: everything after the last `/`. */
  function Basename(p: string): (r: string)
    ensures '/' !in r
    ensures |r| <= |p| && r == p[|p| - |r|..]
    ensures |r| < |p| ==> p[|p| - |r| - 1] == '/'
  {
    p[TailStart(p)..]
  }

  /** `head.rstrip('/')`. */
  function StripTrailingSlashes(s: string): (r: string)
    ensures r <= s
    ensures r == [] || r[|r| - 1] != '/'
    ensures forall k :: |r| <= k < |s| ==> s[k] == '/'
  {
    if s == [] || s[|s| - 1] != '/' then s
    else StripTrailingSlashes(s[..|s| - 1])
  }

  predicate AllSlashes(s: string) {
    forall k :: 0 <= k < |s| ==> s[k] == '/'
  }

  /** `os.path.dirname(p)`: everything before the last component, with the
    * trailing slashes removed unless nothing but slashes is left. */
  function Dirname(p: string): (r: string)
    ensures r <= p
  {
    var head := p[..TailStart(p)];
    if head != [] && !AllSlashes(head) then StripTrailingSlashes(head) else head
  }

  /** Joining a valid name onto any path yields that name as the basename. */
  lemma BasenameOfJoin(a: string, n: string)
    requires ValidName(n)
    ensures Basename(Join(a, n)) == n
  {
    var p := Join(a, n);
    assert p == (a + Sep(a)) + n;
    if Sep(a) == "/" || (a != [] && a[|a| - 1] == '/') {
      TailStartAfterSlash(a + Sep(a), n);
    } else {
      assert a == [] && p == n;
      TailStartNoSlash(n);
    }
  }

  lemma {:induction false} TailStartNoSlash(p: string)
    requires '/' !in p
    ensures TailStart(p) == 0
  {
    if p != [] {
      TailStartNoSlash(p[..|p| - 1]);
    }
  }

  lemma {:induction false} TailStartAfterSlash(h: string, n: string)
    requires h != [] && h[|h| - 1] == '/'
    requires '/' !in n
    ensures TailStart(h + n) == |h|
    decreases |n|
  {
    if n == [] {
      assert h + n == h;
    } else {
      assert (h + n)[..|h + n| - 1] == h + n[..|n| - 1];
      TailStartAfterSlash(h, n[..|n| - 1]);
    }
  }

  // ---------------------------------------------------------------------
  // Nested joins

  /** The path `os.walk(top)` reports for the directory reached through the
    * directory names `dirs`: `join(join(join(top, d1), d2), ...)`. */
  function Root(top: string, dirs: seq<string>): string
  {
    if dirs == [] then top else Join(Root(top, dirs[..|dirs| - 1]), dirs[|dirs| - 1])
  }

  /** `'/'.join(comps)`. */
  function Slashed(comps: seq<string>): string
  {
    if comps == [] then []
    else if |comps| == 1 then comps[0]
    else Slashed(comps[..|comps| - 1]) + "/" + comps[|comps| - 1]
  }

  predicate AllValid(names: seq<string>) {
    forall k :: 0 <= k < |names| ==> ValidName(names[k])
  }

  /** Below `top`, the walk's directory path is `top`, a separator when `top`
    * needs one, and the directory names joined with `/`. */
  lemma {:induction false} RootBelow(top: string, dirs: seq<string>)
    requires dirs != [] && AllValid(dirs)
    ensures Root(top, dirs) == top + Sep(top) + Slashed(dirs)
    decreases |dirs|
  {
    var init, last := dirs[..|dirs| - 1], dirs[|dirs| - 1];
    if init == [] {
      assert dirs == [last];
    } else {
      assert AllValid(init) by {
        assert forall k :: 0 <= k < |init| ==> init[k] == dirs[k];
      }
      RootBelow(top, init);
      var s := Slashed(init);
      SlashedLastChar(init);
      JoinAfterSlashed(top + Sep(top), s, last);
      assert Slashed(dirs) == s + "/" + last;
    }
  }

  /** A `/`-joined list of names is not empty and does not end in `/`. */
  lemma SlashedLastChar(comps: seq<string>)
    requires comps != [] && AllValid(comps)
    ensures var s := Slashed(comps); s != [] && s[|s| - 1] != '/'
  {
    SlashedEndsWithLast(comps);
    var s, l := Slashed(comps), comps[|comps| - 1];
    assert s[|s| - 1] == s[|s| - |l|..][|l| - 1];
  }

  lemma JoinAfterSlashed(h: string, s: string, n: string)
    requires s != [] && s[|s| - 1] != '/' && ValidName(n)
    ensures Join(h + s, n) == h + (s + "/" + n)
  {
    var r := h + s;
    assert r[|r| - 1] == s[|s| - 1];
    assert Join(r, n) == r + "/" + n;
  }

  lemma {:induction false} SlashedEndsWithLast(comps: seq<string>)
    requires comps != [] && AllValid(comps)
    ensures var s := Slashed(comps); var l := comps[|comps| - 1];
      |s| >= |l| && s[|s| - |l|..] == l
  {
    var l := comps[|comps| - 1];
    if |comps| > 1 {
      var s := Slashed(comps);
      assert s == Slashed(comps[..|comps| - 1]) + "/" + l;
      assert s[|s| - |l|..] == l;
    }
  }

  /** Walking from `join(d, n)` is walking from `d` with `n` in front. */
  lemma {:induction false} RootOfJoin(d: string, n: string, dirs: seq<string>)
    ensures Root(Join(d, n), dirs) == Root(d, [n] + dirs)
    decreases |dirs|
  {
    if dirs == [] {
      assert Root(d, [n]) == Join(Root(d, []), n);
    } else {
      var nd := [n] + dirs;
      assert nd[..|nd| - 1] == [n] + dirs[..|dirs| - 1];
      RootOfJoin(d, n, dirs[..|dirs| - 1]);
    }
  }

  /** Joining a name onto a `/`-joined path extends the component list. */
  lemma JoinSlashed(dirs: seq<string>, n: string)
    requires AllValid(dirs) && ValidName(n)
    ensures Join(Slashed(dirs), n) == Slashed(dirs + [n])
  {
    var nd := dirs + [n];
    assert nd[..|nd| - 1] == dirs;
    if dirs != [] {
      SlashedEndsWithLast(dirs);
      var s := Slashed(dirs);
      var l := dirs[|dirs| - 1];
      assert s[|s| - 1] == l[|l| - 1];
    }
  }

  /** `'/'.join([n] + ys)` is `n`, a slash, and `'/'.join(ys)`. */
  lemma {:induction false} SlashedCons(n: string, ys: seq<string>)
    requires ys != []
    ensures Slashed([n] + ys) == n + "/" + Slashed(ys)
    decreases |ys|
  {
    var nys := [n] + ys;
    if |ys| == 1 {
      assert nys[..1] == [n];
    } else {
      assert nys[..|nys| - 1] == [n] + ys[..|ys| - 1];
      SlashedCons(n, ys[..|ys| - 1]);
    }
  }

  /** `dirname` undoes `join` with a name, for a parent without a
    * trailing slash. */
  lemma DirnameOfJoin(parent: string, b: string)
    requires ValidName(b)
    requires parent == [] || parent[|parent| - 1] != '/'
    ensures Dirname(Join(parent, b)) == parent
  {
    if parent == [] {
      TailStartNoSlash(b);
    } else {
      var h := parent + "/";
      assert Join(parent, b) == h + b;
      TailStartAfterSlash(h, b);
      assert (h + b)[..|h|] == h;
      assert h[..|h| - 1] == parent;
      assert !AllSlashes(h) by {
        assert h[|parent| - 1] != '/';
      }
    }
  }

  // ---------------------------------------------------------------------
  // normpath

  /** How many leading slashes `normpath` keeps: two exactly when the path
    * starts with exactly two, else one when it starts with one. */
  function InitialSlashes(p: string): (n: nat)
    ensures n <= 2
  {
    if p == [] || p[0] != '/' then 0
    else if |p| >= 2 && p[1] == '/' && !(|p| >= 3 && p[2] == '/') then 2
    else 1
  }

  /** One component through `normpath`'s loop: empty and `.` components are
    * dropped, `..` removes the previous component where there is one to
    * remove, and is kept where nothing is above it in a relative path. */
  function NormStep(stack: seq<string>, comp: string, initial: nat): seq<string> {
    if comp == "" || comp == "." then stack
    else if comp != ".." || (initial == 0 && stack == []) || (stack != [] && stack[|stack| - 1] == "..") then
      stack + [comp]
    else if stack != [] then stack[..|stack| - 1]
    else stack
  }

  function NormStack(comps: seq<string>, initial: nat): seq<string> {
    if comps == [] then [] else NormStep(NormStack(comps[..|comps| - 1], initial), comps[|comps| - 1], initial)
  }

  /** `os.path.normpath(p)`. */
  function Normpath(p: string): (r: string)
    ensures r != []
  {
    if p == [] then "."
    else
      var initial := InitialSlashes(p);
      var path := (if initial == 2 then "//" else if initial == 1 then "/" else "")
        + Slashed(NormStack(Split(p, '/'), initial));
      if path == [] then "." else path
  }

  /** A component `normpath` passes through unchanged. */
  predicate Normal(n: string) {
    ValidName(n) && n != "." && n != ".."
  }

  predicate AllNormal(names: seq<string>) {
    forall k :: 0 <= k < |names| ==> Normal(names[k])
  }

  /** Names that are all normal, after any number of empty components,
    * are kept as they are. */
  lemma {:induction false} NormStackNormal(lead: seq<string>, names: seq<string>, initial: nat)
    requires forall k :: 0 <= k < |lead| ==> lead[k] == ""
    requires AllNormal(names)
    ensures NormStack(lead + names, initial) == names
    decreases |names|, |lead|
  {
    if names == [] {
      if lead != [] {
        assert (lead + names)[..|lead| - 1] == lead[..|lead| - 1] + names;
        NormStackNormal(lead[..|lead| - 1], names, initial);
      }
    } else {
      var all := lead + names;
      assert all[..|all| - 1] == lead + names[..|names| - 1];
      NormStackNormal(lead, names[..|names| - 1], initial);
    }
  }

  /** A trailing empty component is dropped. */
  lemma NormStackTrailing(comps: seq<string>, initial: nat)
    ensures NormStack(comps + [""], initial) == NormStack(comps, initial)
  {
    assert (comps + [""])[..|comps|] == comps;
  }

  lemma {:induction false} SplitSlashed(names: seq<string>, rest: string)
    requires names != [] && forall k :: 0 <= k < |names| ==> '/' !in names[k]
    ensures Split(Slashed(names) + "/" + rest, '/') == names + Split(rest, '/')
    decreases |names|
  {
    var n := names[0];
    if |names| == 1 {
      assert names == [n];
      IndexOfAppend(n, '/', rest);
      var s := n + "/" + rest;
      assert s[..|n|] == n && s[|n| + 1..] == rest;
    } else {
      var tail := names[1..];
      SlashedCons(n, tail);
      assert names == [n] + tail;
      var s := n + "/" + (Slashed(tail) + "/" + rest);
      assert Slashed(names) + "/" + rest == s;
      IndexOfAppend(n, '/', Slashed(tail) + "/" + rest);
      assert s[..|n|] == n && s[|n| + 1..] == Slashed(tail) + "/" + rest;
      SplitSlashed(tail, rest);
    }
  }

  lemma {:induction false} SplitSlashedEnd(names: seq<string>)
    requires names != [] && forall k :: 0 <= k < |names| ==> '/' !in names[k]
    ensures Split(Slashed(names), '/') == names
  {
    if |names| == 1 {
      SplitAbsent(names[0], '/');
    } else {
      var init := names[..|names| - 1];
      var last := names[|names| - 1];
      SplitSlashed(init, last);
      SplitAbsent(last, '/');
      assert names == init + [last];
    }
  }

  lemma SplitLeadingSlash(x: string)
    ensures Split("/" + x, '/') == [""] + Split(x, '/')
  {
    var s := "/" + x;
    assert s[..0] == "" && s[1..] == x;
  }

  /** An absolute path of normal names is already normal. */
  lemma NormpathOfAbsolute(names: seq<string>)
    requires names != [] && AllNormal(names)
    ensures Normpath("/" + Slashed(names)) == "/" + Slashed(names)
  {
    var s := Slashed(names);
    AbsoluteStart(names, s);
    AbsoluteSplit(names);
    NormStackNormal([""], names, 1);
    NormpathWhen("/" + s, names);
  }

  /** With a trailing slash, `normpath` drops it. */
  lemma NormpathOfAbsoluteSlash(names: seq<string>)
    requires names != [] && AllNormal(names)
    ensures Normpath("/" + Slashed(names) + "/") == "/" + Slashed(names)
  {
    var s := Slashed(names);
    AbsoluteStart(names, s + "/");
    AbsoluteSlashSplit(names);
    NormStackTrailing([""] + names, 1);
    NormStackNormal([""], names, 1);
    NormpathWhen("/" + s + "/", names);
  }

  lemma NormpathWhen(p: string, names: seq<string>)
    requires p != [] && InitialSlashes(p) == 1 && names != []
    requires NormStack(Split(p, '/'), 1) == names
    ensures Normpath(p) == "/" + Slashed(names)
  {
  }

  lemma NormalAreValid(names: seq<string>)
    requires AllNormal(names)
    ensures AllValid(names)
    ensures forall k :: 0 <= k < |names| ==> '/' !in names[k]
  {
    forall k | 0 <= k < |names|
      ensures ValidName(names[k])
    {
      assert Normal(names[k]);
    }
  }

  /** `/` followed by the joined names starts with exactly one slash. */
  lemma AbsoluteStart(names: seq<string>, rest: string)
    requires names != [] && AllNormal(names)
    requires Slashed(names) <= rest
    ensures InitialSlashes("/" + rest) == 1
  {
    NormalAreValid(names);
    SlashedFirst(names);
    var s := Slashed(names);
    assert rest[0] == s[0];
    assert ("/" + rest)[1] == rest[0];
  }

  lemma AbsoluteSplit(names: seq<string>)
    requires names != [] && AllNormal(names)
    ensures Split("/" + Slashed(names), '/') == [""] + names
  {
    NormalAreValid(names);
    SplitLeadingSlash(Slashed(names));
    SplitSlashedEnd(names);
  }

  lemma AbsoluteSlashSplit(names: seq<string>)
    requires names != [] && AllNormal(names)
    ensures Split("/" + Slashed(names) + "/", '/') == ([""] + names) + [""]
  {
    NormalAreValid(names);
    SplitSlashed(names, "");
    SplitOfEmpty('/');
    assert Slashed(names) + "/" + "" == Slashed(names) + "/";
    SplitBetweenSlashes(Slashed(names), names);
  }

  /** A string whose split ends in an empty field splits with one more empty field in front once a slash is put before it. */
  lemma SplitBetweenSlashes(s: string, names: seq<string>)
    requires Split(s + "/", '/') == names + [""]
    ensures Split("/" + s + "/", '/') == ([""] + names) + [""]
  {
    SlashAround(s);
    SplitLeadingSlash(s + "/");
    EmptyAround(names);
  }

  lemma SlashAround(s: string)
    ensures "/" + s + "/" == "/" + (s + "/")
  {
  }

  lemma EmptyAround(names: seq<string>)
    ensures [""] + (names + [""]) == ([""] + names) + [""]
  {
  }

  lemma {:induction false} SlashedFirst(names: seq<string>)
    requires names != [] && AllValid(names)
    ensures Slashed(names) != [] && Slashed(names)[0] == names[0][0]
  {
    if |names| > 1 {
      SlashedFirst(names[..|names| - 1]);
    }
  }
}
