/**
 * A directory tree and the walk `os.walk` makes over it when the caller
 * prunes the subdirectory list in place (the `directories[:] = ...`
 * idiom): a pruned directory is never entered, so nothing below it is seen.
 */
module FileTree {
  import opened PosixPath

  /** A directory entry: a regular file with its bytes, or a directory with
    * its entries in the order `os.listdir` returns them. */
  datatype Node = File(name: string, content: string) | Dir(name: string, children: seq<Node>)

  /** A file as `os.walk` lists it, with the bytes a later read would see. */
  datatype FileEntry = FileEntry(name: string, content: string)

  /** One triple of `os.walk`: the directory names leading from the top to
    * this directory, and the files directly inside it. */
  datatype Step = Step(dirs: seq<string>, files: seq<FileEntry>)

  /** What `os.path.isfile`, `os.path.isdir` and `open` see: the bytes of
    * each regular file by path, and the set of directory paths. */
  datatype Fs = Fs(files: map<string, string>, dirs: set<string>)

  /** A file together with the directory names leading to it. */
  datatype Located = Located(dirs: seq<string>, file: FileEntry)

  /** Every name in the tree is a real directory-entry name. */
  predicate ValidTree(n: Node) {
    match n
    case File(name, _) => ValidName(name)
    case Dir(name, children) => ValidName(name) && ValidChildren(children)
  }

  predicate ValidChildren(children: seq<Node>) {
    forall k :: 0 <= k < |children| ==> ValidTree(children[k])
  }

  /** The files among a directory's entries, in listing order. */
  function FilesOf(children: seq<Node>): (fs: seq<FileEntry>)
    ensures |fs| <= |children|
  {
    if children == [] then []
    else
      (match children[0]
       case File(name, content) => [FileEntry(name, content)]
       case Dir(_, _) => [])
      + FilesOf(children[1..])
  }

  /** `os.walk` from a directory whose entries are `children`, reached
    * through `dirs`, descending only into subdirectories `keep` accepts. */
  function Walk(dirs: seq<string>, children: seq<Node>, keep: string -> bool): seq<Step>
    decreases children, 1
  {
    [Step(dirs, FilesOf(children))] + WalkSubdirs(dirs, children, keep)
  }

  function WalkSubdirs(dirs: seq<string>, children: seq<Node>, keep: string -> bool): seq<Step>
    decreases children, 0
  {
    if children == [] then []
    else
      var here :=
        match children[0]
        case Dir(d, sub) => if keep(d) then Walk(dirs + [d], sub, keep) else []
        case File(_, _) => [];
      here + WalkSubdirs(dirs, children[1..], keep)
  }

  /** The files of a walk, step after step. */
  function Flatten(steps: seq<Step>): seq<Located> {
    if steps == [] then []
    else Place(steps[0].dirs, steps[0].files) + Flatten(steps[1..])
  }

  function Place(dirs: seq<string>, files: seq<FileEntry>): (ls: seq<Located>)
    ensures |ls| == |files|
    ensures forall k :: 0 <= k < |files| ==> ls[k] == Located(dirs, files[k])
  {
    if files == [] then [] else [Located(dirs, files[0])] + Place(dirs, files[1..])
  }

  lemma FlattenAppend(a: seq<Step>, b: seq<Step>)
    ensures Flatten(a + b) == Flatten(a) + Flatten(b)
  {
    if a != [] {
      assert (a + b)[1..] == a[1..] + b;
      FlattenAppend(a[1..], b);
    } else {
      assert a + b == b;
    }
  }

  // ---------------------------------------------------------------------
  // Reference listing: every file, in walk order, no pruning

  /** Every file below a directory, in the order an unpruned walk meets
    * them: the directory's own files first, then each subdirectory's. */
  function AllFiles(dirs: seq<string>, children: seq<Node>): seq<Located>
    decreases children, 1
  {
    Place(dirs, FilesOf(children)) + AllBelow(dirs, children)
  }

  function AllBelow(dirs: seq<string>, children: seq<Node>): seq<Located>
    decreases children, 0
  {
    if children == [] then []
    else
      var here :=
        match children[0]
        case Dir(d, sub) => AllFiles(dirs + [d], sub)
        case File(_, _) => [];
      here + AllBelow(dirs, children[1..])
  }

  /** No directory on the way to the file was rejected by `keep`. */
  predicate Reachable(l: Located, keep: string -> bool) {
    forall k :: 0 <= k < |l.dirs| ==> keep(l.dirs[k])
  }

  /** The files of `ls` that lie below no rejected directory, in order. */
  function ReachableOnly(ls: seq<Located>, keep: string -> bool): (r: seq<Located>)
    ensures |r| <= |ls|
    ensures forall l :: l in r ==> l in ls
  {
    if ls == [] then []
    else (if Reachable(ls[0], keep) then [ls[0]] else []) + ReachableOnly(ls[1..], keep)
  }

  lemma ReachableOnlyAppend(a: seq<Located>, b: seq<Located>, keep: string -> bool)
    ensures ReachableOnly(a + b, keep) == ReachableOnly(a, keep) + ReachableOnly(b, keep)
  {
    if a != [] {
      assert (a + b)[1..] == a[1..] + b;
      ReachableOnlyAppend(a[1..], b, keep);
    } else {
      assert a + b == b;
    }
  }

  /** Every file listed below `dirs` has `dirs` as its leading directories. */
  lemma {:induction false} AllFilesUnder(dirs: seq<string>, children: seq<Node>)
    ensures forall l :: l in AllFiles(dirs, children) ==> dirs <= l.dirs
    decreases children, 1
  {
    AllBelowUnder(dirs, children);
  }

  lemma {:induction false} AllBelowUnder(dirs: seq<string>, children: seq<Node>)
    ensures forall l :: l in AllBelow(dirs, children) ==> dirs <= l.dirs
    ensures forall l :: l in Place(dirs, FilesOf(children)) ==> dirs <= l.dirs
    decreases children, 0
  {
    if children != [] {
      AllBelowUnder(dirs, children[1..]);
      match children[0]
      case Dir(d, sub) =>
        AllFilesUnder(dirs + [d], sub);
      case File(_, _) =>
    }
  }

  /** Below a rejected directory nothing is reachable. */
  lemma {:induction false} ReachableOnlyBelowPruned(dirs: seq<string>, children: seq<Node>, keep: string -> bool)
    requires exists k :: 0 <= k < |dirs| && !keep(dirs[k])
    ensures ReachableOnly(AllFiles(dirs, children), keep) == []
  {
    var ls := AllFiles(dirs, children);
    AllFilesUnder(dirs, children);
    NoneReachable(ls, dirs, keep);
  }

  lemma {:induction false} NoneReachable(ls: seq<Located>, dirs: seq<string>, keep: string -> bool)
    requires exists k :: 0 <= k < |dirs| && !keep(dirs[k])
    requires forall l :: l in ls ==> dirs <= l.dirs
    ensures ReachableOnly(ls, keep) == []
  {
    if ls != [] {
      var k :| 0 <= k < |dirs| && !keep(dirs[k]);
      assert ls[0] in ls;
      assert ls[0].dirs[k] == dirs[k];
      NoneReachable(ls[1..], dirs, keep);
    }
  }

  lemma {:induction false} PlaceAllReachable(dirs: seq<string>, files: seq<FileEntry>, keep: string -> bool)
    requires forall k :: 0 <= k < |dirs| ==> keep(dirs[k])
    ensures ReachableOnly(Place(dirs, files), keep) == Place(dirs, files)
  {
    if files != [] {
      PlaceAllReachable(dirs, files[1..], keep);
    }
  }

  /** The pruned walk lists exactly the files no rejected directory hides,
    * in the order the full walk would list them. */
  lemma {:induction false} WalkIsPrunedListing(dirs: seq<string>, children: seq<Node>, keep: string -> bool)
    requires forall k :: 0 <= k < |dirs| ==> keep(dirs[k])
    ensures Flatten(Walk(dirs, children, keep)) == ReachableOnly(AllFiles(dirs, children), keep)
    decreases children, 1
  {
    var top := [Step(dirs, FilesOf(children))];
    FlattenAppend(top, WalkSubdirs(dirs, children, keep));
    assert Flatten(top) == Place(dirs, FilesOf(children)) + Flatten([]);
    ReachableOnlyAppend(Place(dirs, FilesOf(children)), AllBelow(dirs, children), keep);
    PlaceAllReachable(dirs, FilesOf(children), keep);
    WalkSubdirsIsPrunedListing(dirs, children, keep);
  }

  lemma {:induction false} WalkSubdirsIsPrunedListing(dirs: seq<string>, children: seq<Node>, keep: string -> bool)
    requires forall k :: 0 <= k < |dirs| ==> keep(dirs[k])
    ensures Flatten(WalkSubdirs(dirs, children, keep)) == ReachableOnly(AllBelow(dirs, children), keep)
    decreases children, 0
  {
    if children != [] {
      WalkSubdirsIsPrunedListing(dirs, children[1..], keep);
      match children[0]
      case Dir(d, sub) =>
        var walked := if keep(d) then Walk(dirs + [d], sub, keep) else [];
        FlattenAppend(walked, WalkSubdirs(dirs, children[1..], keep));
        ReachableOnlyAppend(AllFiles(dirs + [d], sub), AllBelow(dirs, children[1..]), keep);
        if keep(d) {
          WalkIsPrunedListing(dirs + [d], sub, keep);
        } else {
          assert (dirs + [d])[|dirs|] == d;
          ReachableOnlyBelowPruned(dirs + [d], sub, keep);
        }
      case File(_, _) =>
        assert WalkSubdirs(dirs, children, keep) == WalkSubdirs(dirs, children[1..], keep);
        assert AllBelow(dirs, children) == AllBelow(dirs, children[1..]);
    }
  }

  /** Two pruning rules that accept the same names give the same walk. */
  lemma {:induction false} WalkSameKeep(dirs: seq<string>, children: seq<Node>, k1: string -> bool, k2: string -> bool)
    requires forall d :: k1(d) == k2(d)
    ensures Walk(dirs, children, k1) == Walk(dirs, children, k2)
    decreases children, 1
  {
    WalkSubdirsSameKeep(dirs, children, k1, k2);
  }

  lemma {:induction false} WalkSubdirsSameKeep(dirs: seq<string>, children: seq<Node>, k1: string -> bool, k2: string -> bool)
    requires forall d :: k1(d) == k2(d)
    ensures WalkSubdirs(dirs, children, k1) == WalkSubdirs(dirs, children, k2)
    decreases children, 0
  {
    if children != [] {
      WalkSubdirsSameKeep(dirs, children[1..], k1, k2);
      match children[0]
      case Dir(d, sub) =>
        WalkSameKeep(dirs + [d], sub, k1, k2);
      case File(_, _) =>
    }
  }

  /** Two pruning rules that accept the same names reach the same files. */
  lemma {:induction false} ReachableOnlySameKeep(ls: seq<Located>, k1: string -> bool, k2: string -> bool)
    requires forall d :: k1(d) == k2(d)
    ensures ReachableOnly(ls, k1) == ReachableOnly(ls, k2)
  {
    if ls != [] {
      ReachableOnlySameKeep(ls[1..], k1, k2);
      assert Reachable(ls[0], k1) == Reachable(ls[0], k2);
    }
  }

  /** In a tree of valid names every listed file has a valid path. */
  lemma {:induction false} AllFilesValid(dirs: seq<string>, children: seq<Node>)
    requires AllValid(dirs) && ValidChildren(children)
    ensures forall l :: l in AllFiles(dirs, children) ==> AllValid(l.dirs) && ValidName(l.file.name)
    decreases children, 1
  {
    AllBelowValid(dirs, children);
  }

  lemma {:induction false} AllBelowValid(dirs: seq<string>, children: seq<Node>)
    requires AllValid(dirs) && ValidChildren(children)
    ensures forall l :: l in AllBelow(dirs, children) ==> AllValid(l.dirs) && ValidName(l.file.name)
    ensures forall l :: l in Place(dirs, FilesOf(children)) ==> AllValid(l.dirs) && ValidName(l.file.name)
    decreases children, 0
  {
    if children != [] {
      assert ValidTree(children[0]);
      AllBelowValid(dirs, children[1..]);
      match children[0]
      case Dir(d, sub) =>
        AllFilesValid(dirs + [d], sub);
      case File(_, _) =>
    }
  }
}
