/**
 * What the copy check relies on: for a faithful copy, the manifest made
 * of the source and the one made of the destination compare equal.
 *
 * Source side (lines 574-582): `make_manifest(source, manifest,
 * dirname(source))`, or `make_manifest(args.source, manifest,
 * args.source)` when the source is a filesystem root (`rootpos == 'y'`).
 * Destination side (lines 511-522): `make_manifest(destination_final_path,
 * manifest_destination, destination)`, where `destination_final_path` is
 * `join(destination, dirname)`. For a root source, `main` first rewrites
 * the source manifest (lines 652-657) and compares the result.
 *
 * "Faithful" means the destination holds the same tree; the statements
 * below also say which paths the deletion of `path_to_remove` leaves
 * intact, since `replace` deletes every occurrence, not just a prefix.
 */
module RoundTrip {
  import opened Common
  import opened PyStr
  import opened PosixPath
  import opened FileTree
  import opened Sorting
  import opened ManifestBuilder
  import opened Verification

  /** A directory-entry name without backslashes, so that neither the
    * separator stripping nor the backslash rewrite touches it. */
  predicate PlainName(n: string) {
    ValidName(n) && '\\' !in n
  }

  predicate PlainNames(ns: seq<string>) {
    forall k :: 0 <= k < |ns| ==> PlainName(ns[k])
  }

  /** `s.replace(pat, '')` has nothing to delete in `s`. */
  predicate Untouched(s: string, pat: string) {
    pat == [] || !Contains(s, pat)
  }

  // ---------------------------------------------------------------------
  // Paths

  lemma {:induction false} SlashedPlain(comps: seq<string>)
    requires comps != [] && PlainNames(comps)
    ensures Slashed(comps) != [] && Slashed(comps)[0] == comps[0][0]
    ensures '\\' !in Slashed(comps)
  {
    if |comps| > 1 {
      var init := comps[..|comps| - 1];
      SlashedPlain(init);
    }
  }

  lemma {:induction false} SlashedLineBreaks(comps: seq<string>)
    requires forall k :: 0 <= k < |comps| ==> NoLineBreak(comps[k])
    ensures NoLineBreak(Slashed(comps))
  {
    if |comps| > 1 {
      SlashedLineBreaks(comps[..|comps| - 1]);
    }
  }

  lemma PlainNamesAreValid(ns: seq<string>)
    requires PlainNames(ns)
    ensures AllValid(ns)
  {
  }

  /** Deleting `parent` from the walk's path below it leaves the separator
    * and the directory names when nothing after `parent` matches it. */
  lemma RemovedBelow(parent: string, dirs: seq<string>)
    requires dirs != [] && PlainNames(dirs)
    requires Untouched(Sep(parent) + Slashed(dirs), parent)
    ensures RemoveAll(Root(parent, dirs), parent) == Sep(parent) + Slashed(dirs)
  {
    PlainNamesAreValid(dirs);
    RootBelow(parent, dirs);
    RemovedPrefix(parent, Sep(parent), Slashed(dirs));
  }

  /** Deleting `pat` from `pat + tail` leaves `tail` when `tail` does not
    * hold `pat`. */
  lemma RemovedPrefix(pat: string, sep: string, rest: string)
    requires Untouched(sep + rest, pat)
    ensures RemoveAll(pat + sep + rest, pat) == sep + rest
  {
    var tail := sep + rest;
    assert pat + sep + rest == pat + tail;
    if pat == [] {
      assert pat + tail == tail;
    } else {
      RemoveAllLeading(pat, tail);
      RemoveAllAbsent(tail, pat);
    }
  }

  lemma StrippedBelow(parent: string, dirs: seq<string>)
    requires dirs != [] && PlainNames(dirs)
    ensures StripLeadingSeparator(Sep(parent) + Slashed(dirs)) == Slashed(dirs)
  {
    SlashedPlain(dirs);
    var tail := Sep(parent) + Slashed(dirs);
    if Sep(parent) == "/" {
      assert tail[1..] == Slashed(dirs);
    } else {
      assert tail == Slashed(dirs);
    }
  }

  /** The relative path of a file below `parent`: when the deletion of
    * `parent` touches nothing after its first occurrence, the path is the
    * directory names and the file name joined with `/`. */
  lemma RelPathBelow(parent: string, dirs: seq<string>, name: string)
    requires dirs != [] && PlainNames(dirs) && PlainName(name)
    requires Untouched(Sep(parent) + Slashed(dirs), parent)
    ensures RelPath(Root(parent, dirs), name, parent) == Slashed(dirs + [name])
  {
    RemovedBelow(parent, dirs);
    StrippedBelow(parent, dirs);
    PlainNamesAreValid(dirs);
    JoinSlashed(dirs, name);
    assert PlainNames(dirs + [name]);
    SlashedPlain(dirs + [name]);
    ToSlashesNoBackslash(Slashed(dirs + [name]));
  }

  // ---------------------------------------------------------------------
  // Two walks of the same tree

  /** The file at `l` is hashed in both walks or in neither; when hashed,
    * its path in the second manifest is `pre` followed by its path in the
    * first. */
  predicate Corresponds(top1: string, p1: string, top2: string, p2: string, pre: string, l: Located) {
    var r1, r2 := Root(top1, l.dirs), Root(top2, l.dirs);
    HashesFile(r1, l.file.name) == HashesFile(r2, l.file.name)
    && (HashesFile(r1, l.file.name) ==>
          RelPath(r2, l.file.name, p2) == pre + RelPath(r1, l.file.name, p1))
  }

  lemma EntryLineReprefix(j1: Job, j2: Job, p1: string, p2: string, pre: string, md5: string -> Digest)
    requires j1.file == j2.file
    requires RelPath(j2.root, j2.file.name, p2) == pre + RelPath(j1.root, j1.file.name, p1)
    ensures EntryLine(j2, p2, md5) == Reprefix(EntryLine(j1, p1, md5), pre)
  {
    var head := md5(j1.file.content) + "  ";
    var rel := RelPath(j1.root, j1.file.name, p1);
    assert EntryLine(j1, p1, md5) == head + rel;
    assert EntryLine(j2, p2, md5) == head + (pre + rel);
    ReprefixAfterHead(head, rel, pre);
  }

  /** A line whose path starts at the path column gets `pre` in front of
    * that path. */
  lemma ReprefixAfterHead(head: string, rel: string, pre: string)
    requires |head| == PathColumn
    ensures Reprefix(head + rel, pre) == head + (pre + rel)
  {
    assert Take(head + rel, PathColumn) == head;
    assert Drop(head + rel, PathColumn) == rel;
  }

  lemma MapLinesSingle<T>(x: T, f: T -> string)
    ensures MapLines([x], f) == [f(x)]
  {
    assert [x][..0] == [];
  }

  lemma HeadLinesReprefixed(
    top1: string, p1: string, top2: string, p2: string, pre: string,
    l: Located, md5: string -> Digest)
    requires Corresponds(top1, p1, top2, p2, pre, l)
    ensures GeneratedLines(SelectJobs(top2, [l]), p2, md5)
         == ReprefixAll(GeneratedLines(SelectJobs(top1, [l]), p1, md5), pre)
  {
    var r1, r2 := Root(top1, l.dirs), Root(top2, l.dirs);
    var js1, js2 := SelectJobs(top1, [l]), SelectJobs(top2, [l]);
    assert [l][1..] == [];
    if HashesFile(r1, l.file.name) {
      assert js1 == [Job(r1, l.file)];
      assert js2 == [Job(r2, l.file)];
      OneLineReprefixed(js1, js2, p1, p2, pre, md5);
    } else {
      assert js1 == [] && js2 == [];
      NoLinesReprefixed(js1, js2, p1, p2, pre, md5);
    }
  }

  lemma OneLineReprefixed(js1: seq<Job>, js2: seq<Job>, p1: string, p2: string, pre: string, md5: string -> Digest)
    requires |js1| == 1 && |js2| == 1 && js1[0].file == js2[0].file
    requires RelPath(js2[0].root, js2[0].file.name, p2) == pre + RelPath(js1[0].root, js1[0].file.name, p1)
    ensures GeneratedLines(js2, p2, md5) == ReprefixAll(GeneratedLines(js1, p1, md5), pre)
  {
    GeneratedOne(js1, p1, md5);
    GeneratedOne(js2, p2, md5);
    EntryLineReprefix(js1[0], js2[0], p1, p2, pre, md5);
    ReprefixAllSingle(EntryLine(js1[0], p1, md5), pre);
  }

  lemma GeneratedOne(js: seq<Job>, p: string, md5: string -> Digest)
    requires |js| == 1
    ensures GeneratedLines(js, p, md5) == [EntryLine(js[0], p, md5)]
  {
    assert js == [js[0]];
    MapLinesSingle(js[0], LineOf(p, md5));
  }

  lemma ReprefixAllSingle(line: string, pre: string)
    ensures ReprefixAll([line], pre) == [Reprefix(line, pre)]
  {
  }

  lemma NoLinesReprefixed(js1: seq<Job>, js2: seq<Job>, p1: string, p2: string, pre: string, md5: string -> Digest)
    requires js1 == [] && js2 == []
    ensures GeneratedLines(js2, p2, md5) == ReprefixAll(GeneratedLines(js1, p1, md5), pre)
  {
    assert GeneratedLines(js1, p1, md5) == [];
  }

  /** Corresponding files give corresponding lines, in the same order. */
  lemma {:induction false} SelectedLinesReprefixed(
    top1: string, p1: string, top2: string, p2: string, pre: string,
    ls: seq<Located>, md5: string -> Digest)
    requires forall l :: l in ls ==> Corresponds(top1, p1, top2, p2, pre, l)
    ensures GeneratedLines(SelectJobs(top2, ls), p2, md5)
         == ReprefixAll(GeneratedLines(SelectJobs(top1, ls), p1, md5), pre)
  {
    if ls != [] {
      var l, rest := ls[0], ls[1..];
      assert ls == [l] + rest;
      SelectJobsAppend(top1, [l], rest);
      SelectJobsAppend(top2, [l], rest);
      var a1, b1 := SelectJobs(top1, [l]), SelectJobs(top1, rest);
      var a2, b2 := SelectJobs(top2, [l]), SelectJobs(top2, rest);
      HeadLinesReprefixed(top1, p1, top2, p2, pre, l, md5);
      SelectedLinesReprefixed(top1, p1, top2, p2, pre, rest, md5);
      MapLinesAppend(a1, b1, LineOf(p1, md5));
      MapLinesAppend(a2, b2, LineOf(p2, md5));
      ReprefixAllAppend(GeneratedLines(a1, p1, md5), GeneratedLines(b1, p1, md5), pre);
    }
  }

  /** The relative paths of the selected files hold no line break when
    * every hashed file's does. */
  lemma {:induction false} SelectedPathsUnbroken(top: string, p: string, ls: seq<Located>)
    requires forall l :: l in ls ==> HashesFile(Root(top, l.dirs), l.file.name) ==>
      NoLineBreak(RelPath(Root(top, l.dirs), l.file.name, p))
    ensures forall j :: j in SelectJobs(top, ls) ==> NoLineBreak(RelPath(j.root, j.file.name, p))
  {
    if ls != [] {
      SelectedPathsUnbroken(top, p, ls[1..]);
    }
  }

  // ---------------------------------------------------------------------
  // The usual case: the source is a named directory

  lemma CorrespondsBelow(parent: string, b: string, dest: string, l: Located)
    requires PlainName(b) && PlainNames(l.dirs) && PlainName(l.file.name)
    requires Untouched(Sep(parent) + Slashed([b] + l.dirs), parent)
    requires Untouched(Sep(dest) + Slashed([b] + l.dirs), dest)
    ensures Corresponds(Join(parent, b), parent, Join(dest, b), dest, "", l)
  {
    var name := l.file.name;
    var r1, r2 := Root(Join(parent, b), l.dirs), Root(Join(dest, b), l.dirs);
    JoinedBelow(parent, b, l.dirs, name);
    JoinedBelow(dest, b, l.dirs, name);
    assert HashesFile(r1, name) == HashesFile(r2, name);
    var rel := Slashed([b] + l.dirs + [name]);
    assert RelPath(r2, name, dest) == rel == RelPath(r1, name, parent);
    assert "" + rel == rel;
  }

  /** Below `join(parent, b)`, whether a file is hashed depends only on its
    * own directory's name, and its path is the components from `b` down. */
  lemma JoinedBelow(parent: string, b: string, dirs: seq<string>, name: string)
    requires PlainName(b) && PlainNames(dirs) && PlainName(name)
    requires Untouched(Sep(parent) + Slashed([b] + dirs), parent)
    ensures var r, bd := Root(Join(parent, b), dirs), [b] + dirs;
      (HashesFile(r, name) <==> bd[|dirs|] != SystemVolume && name != [] && name[0] != '.')
      && RelPath(r, name, parent) == Slashed(bd + [name])
  {
    PlainNamesCons(b, dirs);
    RootOfJoin(parent, b, dirs);
    BelowRoot(parent, [b] + dirs, name, Root(Join(parent, b), dirs));
  }

  /** The two facts of `JoinedBelow`, for a walk position `r` already known
    * to be `parent` followed by the components `dirs`. */
  lemma BelowRoot(parent: string, dirs: seq<string>, name: string, r: string)
    requires dirs != [] && PlainNames(dirs) && PlainName(name)
    requires Untouched(Sep(parent) + Slashed(dirs), parent)
    requires r == Root(parent, dirs)
    ensures HashesFile(r, name) <==> dirs[|dirs| - 1] != SystemVolume && name != [] && name[0] != '.'
    ensures RelPath(r, name, parent) == Slashed(dirs + [name])
  {
    HashesFileChecksParentOnly(parent, dirs, name);
    RelPathBelow(parent, dirs, name);
  }

  /** A directory `join(parent, b)` copied into `dest` as `join(dest, b)`:
    * the source manifest (made relative to `dirname(source)`) and the
    * destination manifest (made relative to `dest`) are the same bytes,
    * so `verify_copy` reports a match. */
  lemma FaithfulCopyManifestsMatch(
    parent: string, b: string, dest: string, name: string, children: seq<Node>, md5: string -> Digest)
    requires PlainName(b)
    requires parent != [] && parent[0] == '/' && parent[|parent| - 1] != '/'
    requires dest != [] && dest[0] == '/'
    requires forall l :: l in AllFiles([], children) ==>
      PlainNames(l.dirs) && PlainName(l.file.name)
      && Untouched(Sep(parent) + Slashed([b] + l.dirs), parent)
      && Untouched(Sep(dest) + Slashed([b] + l.dirs), dest)
    ensures var at := Some(Dir(name, children));
      var source := Join(parent, b);
      ManifestText(source, at, Dirname(source), md5) == ManifestText(Join(dest, b), at, dest, md5)
  {
    var top1, top2 := Join(parent, b), Join(dest, b);
    DirnameOfJoin(parent, b);
    var ls := ReachableOnly(AllFiles([], children), ManifestKeepsDir);
    ChecksumListIsFilteredListing(top1, name, children);
    ChecksumListIsFilteredListing(top2, name, children);
    forall l | l in ls
      ensures Corresponds(top1, parent, top2, dest, "", l)
    {
      CorrespondsBelow(parent, b, dest, l);
    }
    SelectedLinesReprefixed(top1, parent, top2, dest, "", ls, md5);
    ReprefixEmpty(GeneratedLines(SelectJobs(top1, ls), parent, md5));
  }

  // ---------------------------------------------------------------------
  // A filesystem root as the source

  lemma CorrespondsAtRootTop(s: string, n: string, dest: string, l: Located)
    requires s != [] && s[|s| - 1] == '/' && l.dirs == []
    requires PlainName(n) && n != SystemVolume && PlainName(l.file.name)
    requires Untouched(Sep(dest) + Slashed([n]), dest)
    ensures Corresponds(s, s, Join(dest, n), dest, n + "/", l)
  {
    var name := l.file.name;
    assert PlainNames([n]);
    RootOfJoin(dest, n, []);
    assert [n] + l.dirs == [n];
    RelPathBelow(dest, [n], name);
    SlashedCons(n, [name]);
    assert Slashed([name]) == name;
    assert Basename(s) == [];
    BasenameOfJoin(dest, n);
    RelPathOfTop(s, name);
  }

  lemma CorrespondsAtRootBelow(s: string, n: string, dest: string, l: Located)
    requires s != [] && s[|s| - 1] == '/' && l.dirs != []
    requires PlainName(n) && PlainNames(l.dirs) && PlainName(l.file.name)
    requires Untouched(Slashed(l.dirs), s)
    requires Untouched(Sep(dest) + Slashed([n] + l.dirs), dest)
    ensures Corresponds(s, s, Join(dest, n), dest, n + "/", l)
  {
    var name := l.file.name;
    var dirs := [n] + l.dirs;
    RootOfJoin(dest, n, l.dirs);
    SameParentAtRoot(s, dest, n, l.dirs, name);
    var rel1 := RelPath(Root(s, l.dirs), name, s);
    var rel2 := RelPath(Root(dest, dirs), name, dest);
    RelPathsAtRoot(s, dest, n, l.dirs, name);
    assert rel2 == n + "/" + rel1;
  }

  lemma SameParentAtRoot(s: string, dest: string, n: string, dirs: seq<string>, name: string)
    requires dirs != [] && PlainName(n) && PlainNames(dirs)
    ensures HashesFile(Root(s, dirs), name) == HashesFile(Root(dest, [n] + dirs), name)
  {
    var nd := [n] + dirs;
    assert nd[|nd| - 1] == dirs[|dirs| - 1];
    HashesFileChecksParentOnly(s, dirs, name);
    HashesFileChecksParentOnly(dest, nd, name);
  }

  lemma RelPathsAtRoot(s: string, dest: string, n: string, dirs: seq<string>, name: string)
    requires s != [] && s[|s| - 1] == '/' && dirs != []
    requires PlainName(n) && PlainNames(dirs) && PlainName(name)
    requires Untouched(Slashed(dirs), s)
    requires Untouched(Sep(dest) + Slashed([n] + dirs), dest)
    ensures RelPath(Root(dest, [n] + dirs), name, dest) == n + "/" + RelPath(Root(s, dirs), name, s)
  {
    PlainNamesCons(n, dirs);
    RelPathBelow(dest, [n] + dirs, name);
    RelPathBelowSlashedRoot(s, dirs, name);
    SlashedConsSnoc(n, dirs, name);
  }

  lemma PlainNamesCons(n: string, dirs: seq<string>)
    requires PlainName(n) && PlainNames(dirs)
    ensures PlainNames([n] + dirs)
  {
  }

  lemma SlashedConsSnoc(n: string, dirs: seq<string>, name: string)
    ensures Slashed([n] + dirs + [name]) == n + "/" + Slashed(dirs + [name])
  {
    assert [n] + dirs + [name] == [n] + (dirs + [name]);
    SlashedCons(n, dirs + [name]);
  }

  /** Below a top that ends in `/`, the path is the components joined. */
  lemma RelPathBelowSlashedRoot(s: string, dirs: seq<string>, name: string)
    requires s != [] && s[|s| - 1] == '/' && dirs != []
    requires PlainNames(dirs) && PlainName(name)
    requires Untouched(Slashed(dirs), s)
    ensures RelPath(Root(s, dirs), name, s) == Slashed(dirs + [name])
  {
    assert Sep(s) + Slashed(dirs) == Slashed(dirs);
    RelPathBelow(s, dirs, name);
  }

  /** Every component is free of line breaks. */
  predicate Unbroken(names: seq<string>) {
    forall k :: 0 <= k < |names| ==> NoLineBreak(names[k])
  }

  lemma CorrespondsAtRoot(s: string, n: string, dest: string, l: Located)
    requires s != [] && s[|s| - 1] == '/'
    requires PlainName(n) && n != SystemVolume
    requires PlainNames(l.dirs) && PlainName(l.file.name) && Unbroken(l.dirs + [l.file.name])
    requires l.dirs != [] ==> Untouched(Slashed(l.dirs), s)
    requires Untouched(Sep(dest) + Slashed([n] + l.dirs), dest)
    ensures Corresponds(s, s, Join(dest, n), dest, n + "/", l)
    ensures NoLineBreak(RelPath(Root(s, l.dirs), l.file.name, s))
  {
    var name := l.file.name;
    SlashedLineBreaks(l.dirs + [name]);
    if l.dirs == [] {
      CorrespondsAtRootTop(s, n, dest, l);
      RelPathOfTop(s, name);
      assert l.dirs + [name] == [name];
    } else {
      CorrespondsAtRootBelow(s, n, dest, l);
      assert Sep(s) + Slashed(l.dirs) == Slashed(l.dirs);
      RelPathBelow(s, l.dirs, name);
    }
  }

  /** A line as the rewrite expects it: long enough, the separator's
    * second space in column 34, and no newline inside. */
  predicate Written(line: string) {
    |line| >= PathColumn && line[PathColumn - 1] == ' ' && NoLineBreak(line)
  }

  lemma EntryLineWritten(job: Job, p: string, md5: string -> Digest)
    requires NoLineBreak(RelPath(job.root, job.file.name, p))
    ensures Written(EntryLine(job, p, md5))
  {
    DigestLineWritten(md5(job.file.content), RelPath(job.root, job.file.name, p));
  }

  lemma DigestLineWritten(d: Digest, rel: string)
    requires NoLineBreak(rel)
    ensures Written(d + "  " + rel)
  {
    var line := d + "  " + rel;
    DigestLineBreaks(d, rel);
    assert line[PathColumn - 1] == (d + "  ")[PathColumn - 1];
  }

  lemma GeneratedLinesWritten(jobs: seq<Job>, p: string, md5: string -> Digest)
    requires forall j :: j in jobs ==> NoLineBreak(RelPath(j.root, j.file.name, p))
    ensures forall k :: 0 <= k < |jobs| ==> Written(GeneratedLines(jobs, p, md5)[k])
  {
    forall k | 0 <= k < |jobs|
      ensures Written(GeneratedLines(jobs, p, md5)[k])
    {
      MapLinesAt(jobs, LineOf(p, md5), k);
      EntryLineWritten(jobs[k], p, md5);
    }
  }

  /** Sorting keeps every property each line has. */
  lemma SortedKeeps(listed: seq<string>, P: string -> bool)
    requires forall k :: 0 <= k < |listed| ==> P(listed[k])
    ensures forall k :: 0 <= k < |SortByPath(listed)| ==> P(SortByPath(listed)[k])
  {
    var written := SortByPath(listed);
    SortByPathCorrect(listed);
    forall k | 0 <= k < |written|
      ensures P(written[k])
    {
      assert written[k] in multiset(listed);
      var m :| 0 <= m < |listed| && listed[m] == written[k];
    }
  }

  /** Rewriting sorted written lines is sorting the rewritten lines. */
  lemma RewriteCommutesWithSort(listed: seq<string>, n: string)
    requires forall k :: 0 <= k < |listed| ==> Written(listed[k])
    ensures Concat(RebasedLines(ReadLines(Unlines(SortByPath(listed))), n))
         == Unlines(SortByPath(ReprefixAll(listed, n + "/")))
  {
    SortByPathReprefix(listed, n + "/");
    SortedKeeps(listed, Written);
    var written := SortByPath(listed);
    forall k | 0 <= k < |written|
      ensures '\n' !in written[k]
    {
      assert Written(written[k]);
    }
    RebasedText(written, n);
  }

  /** Every reachable file of a root source corresponds to its copy, with
    * unbroken paths on both sides. */
  lemma RootFilesCorrespond(s: string, n: string, dest: string, ls: seq<Located>)
    requires s != [] && s[|s| - 1] == '/'
    requires PlainName(n) && NoLineBreak(n) && n != SystemVolume
    requires forall l :: l in ls ==>
      PlainNames(l.dirs) && PlainName(l.file.name) && Unbroken(l.dirs + [l.file.name])
      && (l.dirs != [] ==> Untouched(Slashed(l.dirs), s))
      && Untouched(Sep(dest) + Slashed([n] + l.dirs), dest)
    ensures forall l :: l in ls ==> Corresponds(s, s, Join(dest, n), dest, n + "/", l)
    ensures forall j :: j in SelectJobs(s, ls) ==> NoLineBreak(RelPath(j.root, j.file.name, s))
  {
    var top2, pre := Join(dest, n), n + "/";
    forall l | l in ls
      ensures Corresponds(s, s, top2, dest, pre, l)
      ensures NoLineBreak(RelPath(Root(s, l.dirs), l.file.name, s))
    {
      CorrespondsAtRoot(s, n, dest, l);
    }
    SelectedPathsUnbroken(s, s, ls);
  }

  lemma ReprefixUnbroken(lines: seq<string>, pre: string)
    requires NoLineBreak(pre)
    requires forall k :: 0 <= k < |lines| ==> Written(lines[k])
    ensures forall k :: 0 <= k < |lines| ==> NoLineBreak(ReprefixAll(lines, pre)[k])
  {
    forall k | 0 <= k < |lines|
      ensures NoLineBreak(ReprefixAll(lines, pre)[k])
    {
      var line := lines[k];
      var moved := Reprefix(line, pre);
      assert moved == line[..PathColumn] + pre + line[PathColumn..];
      forall i | 0 <= i < |moved|
        ensures !IsLineBreak(moved[i])
      {
        if i < PathColumn {
          assert moved[i] == line[i];
        } else if i >= PathColumn + |pre| {
          assert moved[i] == line[i - |pre|];
        } else {
          assert moved[i] == pre[i - PathColumn];
        }
      }
    }
  }

  /** The two listings of the root case: the destination's lines are the
    * source's lines with `n/` in front of each path. */
  lemma RootListings(
    s: string, n: string, dest: string, name: string, children: seq<Node>, md5: string -> Digest)
    requires s != [] && s[|s| - 1] == '/'
    requires PlainName(n) && NoLineBreak(n) && n != SystemVolume
    requires forall l :: l in AllFiles([], children) ==>
      PlainNames(l.dirs) && PlainName(l.file.name) && Unbroken(l.dirs + [l.file.name])
      && (l.dirs != [] ==> Untouched(Slashed(l.dirs), s))
      && Untouched(Sep(dest) + Slashed([n] + l.dirs), dest)
    ensures var at := Some(Dir(name, children));
      var listed := ManifestList(s, at, s, md5);
      ManifestList(Join(dest, n), at, dest, md5) == ReprefixAll(listed, n + "/")
      && forall k :: 0 <= k < |listed| ==> Written(listed[k])
  {
    var at := Some(Dir(name, children));
    var top2 := Join(dest, n);
    var ls := ReachableOnly(AllFiles([], children), ManifestKeepsDir);
    ChecksumListIsFilteredListing(s, name, children);
    ChecksumListIsFilteredListing(top2, name, children);
    RootSelected(s, n, dest, ls, md5);
    ManifestListIsEntries(s, at, s, md5);
    var listed := GeneratedLines(SelectJobs(s, ls), s, md5);
    ListingOfUnbroken(top2, at, dest, md5, SelectJobs(top2, ls), ReprefixAll(listed, n + "/"));
  }

  /** The root case on the files the walk selects: each destination line is
    * the source line with `n/` in front of its path. */
  lemma RootSelected(s: string, n: string, dest: string, ls: seq<Located>, md5: string -> Digest)
    requires s != [] && s[|s| - 1] == '/'
    requires PlainName(n) && NoLineBreak(n) && n != SystemVolume
    requires forall l :: l in ls ==>
      PlainNames(l.dirs) && PlainName(l.file.name) && Unbroken(l.dirs + [l.file.name])
      && (l.dirs != [] ==> Untouched(Slashed(l.dirs), s))
      && Untouched(Sep(dest) + Slashed([n] + l.dirs), dest)
    ensures forall j :: j in SelectJobs(s, ls) ==> NoLineBreak(RelPath(j.root, j.file.name, s))
    ensures var listed := GeneratedLines(SelectJobs(s, ls), s, md5);
      GeneratedLines(SelectJobs(Join(dest, n), ls), dest, md5) == ReprefixAll(listed, n + "/")
      && (forall k :: 0 <= k < |listed| ==> Written(listed[k]))
      && forall k :: 0 <= k < |listed| ==> NoLineBreak(ReprefixAll(listed, n + "/")[k])
  {
    var pre := n + "/";
    RootFilesCorrespond(s, n, dest, ls);
    SelectedLinesReprefixed(s, s, Join(dest, n), dest, pre, ls, md5);
    var listed := GeneratedLines(SelectJobs(s, ls), s, md5);
    GeneratedLinesWritten(SelectJobs(s, ls), s, md5);
    NoLineBreakAppend(n, "/");
    ReprefixUnbroken(listed, pre);
  }

  /** A listing whose lines hold no line break reads back as those lines. */
  lemma ListingOfUnbroken(
    top: string, at: Option<Node>, p: string, md5: string -> Digest, jobs: seq<Job>, lines: seq<string>)
    requires ChecksumList(top, at) == jobs && GeneratedLines(jobs, p, md5) == lines
    requires forall k :: 0 <= k < |lines| ==> NoLineBreak(lines[k])
    ensures ManifestList(top, at, p, md5) == lines
  {
    ManifestListOf(top, at, p, md5, jobs, lines);
    SplitLinesOfUnlines(lines);
  }

  /** A filesystem root `s` copied into `dest` under the name `n` the user
    * typed: once `main` rewrites the source manifest, putting `n/` in
    * front of every path, it is the same bytes as the destination
    * manifest, so `verify_copy` reports a match. */
  lemma RootCopyManifestsMatchAfterRewrite(
    s: string, n: string, dest: string, name: string, children: seq<Node>, md5: string -> Digest)
    requires s != [] && s[0] == '/' && s[|s| - 1] == '/'
    requires dest != [] && dest[0] == '/'
    requires PlainName(n) && NoLineBreak(n) && n != SystemVolume
    requires forall l :: l in AllFiles([], children) ==>
      PlainNames(l.dirs) && PlainName(l.file.name) && Unbroken(l.dirs + [l.file.name])
      && (l.dirs != [] ==> Untouched(Slashed(l.dirs), s))
      && Untouched(Sep(dest) + Slashed([n] + l.dirs), dest)
    ensures var at := Some(Dir(name, children));
      Concat(RebasedLines(ReadLines(ManifestText(s, at, s, md5)), n))
      == ManifestText(Join(dest, n), at, dest, md5)
  {
    RootListings(s, n, dest, name, children, md5);
    RewriteCommutesWithSort(ManifestList(s, Some(Dir(name, children)), s, md5), n);
  }

  // ---------------------------------------------------------------------
  // Where the deletion of path_to_remove goes too far

  /** A source directly below `/` has `/` as its `dirname`, and
    * `replace('/', '')` deletes every slash of the walked path: the file
    * `s/f` of the source `/d` is listed as `ds/f`, while the copy in
    * `/b/d` lists it as `d/s/f`, so the two manifests differ. */
  lemma SourceBelowFilesystemRootLosesSlashes()
    ensures Dirname("/d") == "/"
    ensures RelPath(Root("/d", ["s"]), "f", "/") == "ds/f"
    ensures RelPath(Root(Join("/b", "d"), ["s"]), "f", "/b") == "d/s/f"
  {
    DirnameBelowFilesystemRoot();
    SlashesDeleted();
    CopyPathKept();
  }

  lemma DirnameBelowFilesystemRoot()
    ensures Dirname("/d") == "/"
  {
    assert "/d"[..1] == "/";
    assert TailStart("/d"[..1]) == 1;
    assert TailStart("/d") == 1;
    assert AllSlashes("/");
  }

  lemma SlashesDeleted()
    ensures RelPath(Root("/d", ["s"]), "f", "/") == "ds/f"
  {
    SlashesDeletedRoot();
    SlashesDeletedFromRoot();
    SlashesDeletedPlain();
    RelPathOfRemoved("/d/s", "f", "/", "ds");
  }

  lemma SlashesDeletedRoot()
    ensures Root("/d", ["s"]) == "/d/s"
  {
    assert Root("/d", ["s"]) == Join("/d", "s");
  }

  lemma SlashesDeletedPlain()
    ensures "ds" != [] && "ds"[0] != '/' && "ds"[0] != '\\' && "ds"[|"ds"| - 1] != '/'
    ensures '\\' !in "ds" && ValidName("f") && '\\' !in "f"
    ensures "ds" + "/" + "f" == "ds/f"
  {
  }

  /** Once the deletion has left a plain relative directory path, the
    * written path is that directory, a slash and the name. */
  lemma RelPathOfRemoved(root: string, name: string, pat: string, removed: string)
    requires RemoveAll(root, pat) == removed
    requires removed != [] && removed[0] != '/' && removed[0] != '\\' && removed[|removed| - 1] != '/'
    requires '\\' !in removed && ValidName(name) && '\\' !in name
    ensures RelPath(root, name, pat) == removed + "/" + name
  {
    assert StripLeadingSeparator(removed) == removed;
    assert Join(removed, name) == removed + "/" + name;
    ToSlashesNoBackslash(removed + "/" + name);
  }

  lemma SlashesDeletedFromRoot()
    ensures RemoveAll("/d/s", "/") == "ds"
  {
    assert RemoveAll("s", "/") == "s" by {
      assert "s"[..1] != "/" && "s"[1..] == [];
    }
    assert RemoveAll("/s", "/") == "s" by {
      assert "/s"[..1] == "/" && "/s"[1..] == "s";
    }
    assert RemoveAll("d/s", "/") == "ds" by {
      assert "d/s"[..1] != "/" && "d/s"[1..] == "/s";
    }
    assert "/d/s"[..1] == "/" && "/d/s"[1..] == "d/s";
  }

  lemma CopyPathKept()
    ensures RelPath(Root(Join("/b", "d"), ["s"]), "f", "/b") == "d/s/f"
  {
    CopyExampleRoot();
    CopyExampleUntouched();
    assert PlainNames(["d", "s"]) && PlainName("f");
    RelPathBelow("/b", ["d", "s"], "f");
    CopyExampleSlashed();
  }

  lemma CopyExampleRoot()
    ensures Root(Join("/b", "d"), ["s"]) == Root("/b", ["d", "s"])
  {
    RootOfJoin("/b", "d", ["s"]);
    assert ["d"] + ["s"] == ["d", "s"];
  }

  lemma CopyExampleUntouched()
    ensures Untouched(Sep("/b") + Slashed(["d", "s"]), "/b")
  {
    assert Sep("/b") == "/";
    assert Slashed(["d", "s"]) == "d/s" by {
      assert ["d", "s"][..1] == ["d"];
    }
    assert "/" + "d/s" == "/d/s";
    assert !Contains("/d/s", "/b") by {
      assert "/d/s"[1..] == "d/s" && "d/s"[1..] == "/s" && "/s"[1..] == "s" && "s"[1..] == [];
    }
  }

  lemma CopyExampleSlashed()
    ensures Slashed(["d", "s"] + ["f"]) == "d/s/f"
  {
    assert ["d", "s"] + ["f"] == ["d", "s", "f"];
    assert ["d", "s", "f"][..2] == ["d", "s"];
    assert ["d", "s"][..1] == ["d"];
  }
}
