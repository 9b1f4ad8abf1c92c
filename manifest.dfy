/**
 * The checksum manifest builder (`make_manifest` and `hashlib_md5` in
 * copyit.py): walk a tree, hash every file that is not hidden, turn each
 * into `<digest>  <relative path>`, sort the lines by path and write them.
 *
 * MD5 itself is a parameter `md5` from file bytes to a 32-character
 * lowercase hex digest; nothing about its internals is modelled.
 */
module ManifestBuilder {
  import opened Common
  import opened PyStr
  import opened PosixPath
  import opened FileTree
  import opened Sorting

  predicate IsHexDigit(c: char) {
    '0' <= c <= '9' || 'a' <= c <= 'f'
  }

  /** What `hexdigest()` returns: 32 lowercase hexadecimal characters. */
  type Digest = s: string | |s| == 32 && forall i :: 0 <= i < |s| ==> IsHexDigit(s[i])
    witness "d41d8cd98f00b204e9800998ecf8427e"

  /** The digest columns at the start of every manifest line. */
  const DigestWidth: nat := 32

  /** `hashlib_md5` reads files `2**20` bytes at a time. */
  const ChunkSize: nat := 0x10_0000

  /** The Windows system folder whose direct children are not hashed. */
  const SystemVolume: string := "System Volume Information"

  // ---------------------------------------------------------------------
  // Hashing one file

  /** `hashlib_md5`: feeds the file to the digest chunk by chunk and returns
    * `hexdigest + '  ' + path + '\n'`. The progress percentages it prints
    * are not modelled. */
  method HashFile(content: string, path: string, md5: string -> Digest) returns (out: string)
    ensures out == md5(content) + "  " + path + "\n"
    ensures Take(out, DigestWidth) == md5(content)
  {
    var readSize := 0;
    var fed: string := [];
    while true
      invariant readSize <= |content|
      invariant fed == content[..readSize]
      decreases |content| - readSize
    {
      var buf := Take(content[readSize..], ChunkSize);
      if buf == [] {
        break;
      }
      readSize := readSize + |buf|;
      fed := fed + buf;
    }
    assert fed == content;
    out := md5(fed) + "  " + path + "\n";
    assert out[..DigestWidth] == md5(content);
  }

  // ---------------------------------------------------------------------
  // Which files are hashed

  /** The pruning of lines 105-110: a subdirectory is entered unless its
    * first character is `.`. The second filter compares that single
    * character with a 25-character name, so it never rejects anything. */
  predicate ManifestKeepsDir(d: string) {
    d != [] && d[0] != '.' && [d[0]] != SystemVolume
  }

  /** The file filter of lines 111-116: nothing directly inside a folder
    * named `System Volume Information`, and no name starting with `.`. */
  predicate HashesFile(root: string, name: string) {
    Basename(root) != SystemVolume && name != [] && name[0] != '.'
  }

  /** The second filter of lines 108-110 lets every directory through. */
  lemma ManifestPruningIsDotOnly(d: string)
    ensures ManifestKeepsDir(d) <==> d != [] && d[0] != '.'
  {
  }

  /** One `[root, files]` pair of `checksum_list`. */
  datatype Job = Job(root: string, file: FileEntry)

  /** The files of one walk step that pass the filter, in listing order. */
  function KeptFiles(root: string, files: seq<FileEntry>): (kept: seq<FileEntry>)
    ensures |kept| <= |files|
    ensures forall k :: 0 <= k < |kept| ==> kept[k] in files && HashesFile(root, kept[k].name)
  {
    if files == [] then []
    else (if HashesFile(root, files[0].name) then [files[0]] else []) + KeptFiles(root, files[1..])
  }

  /** One job per kept file, all in the same directory. */
  function JobsAt(root: string, kept: seq<FileEntry>): (jobs: seq<Job>)
    ensures |jobs| == |kept|
  {
    seq(|kept|, k requires 0 <= k < |kept| => Job(root, kept[k]))
  }

  function StepJobs(top: string, st: Step): seq<Job> {
    var root := Root(top, st.dirs);
    JobsAt(root, KeptFiles(root, st.files))
  }

  function WalkJobs(top: string, steps: seq<Step>): seq<Job> {
    if steps == [] then [] else StepJobs(top, steps[0]) + WalkJobs(top, steps[1..])
  }

  /** `checksum_list` for `manifest_dir`: for a directory, every kept file
    * of the pruned walk; for a single file, that file; otherwise nothing. */
  function ChecksumList(top: string, at: Option<Node>): seq<Job> {
    match at
    case None => []
    case Some(File(_, content)) => [Job(Dirname(top), FileEntry(Basename(top), content))]
    case Some(Dir(_, children)) => WalkJobs(top, Walk([], children, ManifestKeepsDir))
  }

  // ---------------------------------------------------------------------
  // One manifest line

  /** Lines 145-150: drop one leading `/`, then one leading backslash; when
    * the string runs out, the `IndexError` is swallowed by the bare except. */
  function StripLeadingSeparator(s: string): (r: string)
    ensures |r| <= |s| && |s| - |r| <= 2 && r == s[|s| - |r|..]
    ensures s[..|s| - |r|] in {"", "/", "\\", "/\\"}
    ensures s == [] || (s[0] != '/' && s[0] != '\\') ==> r == s
    ensures s != [] && s[0] == '\\' ==> r == s[1..]
    ensures s != [] && s[0] == '/' && (|s| == 1 || s[1] != '\\') ==> r == s[1..]
    ensures |s| >= 2 && s[0] == '/' && s[1] == '\\' ==> r == s[2..]
  {
    var s1 := if s != [] && s[0] == '/' then s[1..] else s;
    var r := if s1 != [] && s1[0] == '\\' then s1[1..] else s1;
    assert s[..|s| - |r|] == [] || s[..|s| - |r|] == [s[0]] || s[..|s| - |r|] == [s[0], s[1]];
    r
  }

  /** The path written for a file: the directory with every occurrence of
    * `pathToRemove` deleted and one leading separator dropped, joined with
    * the file name, and with backslashes turned into forward slashes. */
  function RelPath(root: string, name: string, pathToRemove: string): string {
    ToSlashes(Join(StripLeadingSeparator(RemoveAll(root, pathToRemove)), name))
  }

  /** `md5[:32] + '  ' + relative path`, without the newline. */
  function EntryLine(job: Job, pathToRemove: string, md5: string -> Digest): string {
    md5(job.file.content) + "  " + RelPath(job.root, job.file.name, pathToRemove)
  }

  /** The line of each job, as a function the list helpers below take. */
  function LineOf(pathToRemove: string, md5: string -> Digest): Job -> string {
    job => EntryLine(job, pathToRemove, md5)
  }

  /** `[f(x) for x in xs]`, built from the end as a loop that appends. */
  function MapLines<T>(xs: seq<T>, f: T -> string): (lines: seq<string>)
    ensures |lines| == |xs|
  {
    if xs == [] then [] else MapLines(xs[..|xs| - 1], f) + [f(xs[|xs| - 1])]
  }

  /** The generated lines, one per job, in job order. */
  function GeneratedLines(jobs: seq<Job>, pathToRemove: string, md5: string -> Digest): (lines: seq<string>)
    ensures |lines| == |jobs|
  {
    MapLines(jobs, LineOf(pathToRemove, md5))
  }

  /** `manifest_generator.splitlines()`. */
  function ManifestList(top: string, at: Option<Node>, pathToRemove: string, md5: string -> Digest): seq<string> {
    SplitLines(Unlines(GeneratedLines(ChecksumList(top, at), pathToRemove, md5)))
  }

  /** The bytes `make_manifest` writes to `manifest_textfile`. */
  function ManifestText(top: string, at: Option<Node>, pathToRemove: string, md5: string -> Digest): string {
    Unlines(SortByPath(ManifestList(top, at, pathToRemove, md5)))
  }

  // ---------------------------------------------------------------------
  // make_manifest

  lemma WalkJobsAppend(top: string, a: seq<Step>, b: seq<Step>)
    ensures WalkJobs(top, a + b) == WalkJobs(top, a) + WalkJobs(top, b)
  {
    if a == [] {
      assert a + b == b;
    } else {
      assert (a + b)[1..] == a[1..] + b;
      WalkJobsAppend(top, a[1..], b);
    }
  }

  /** Lines 135-136: one `[root, name]` pair appended per kept name. */
  method AppendJobs(checksumList: seq<Job>, root: string, filenames: seq<FileEntry>) returns (extended: seq<Job>)
    ensures extended == checksumList + JobsAt(root, filenames)
  {
    extended := checksumList;
    var j := 0;
    while j < |filenames|
      invariant 0 <= j <= |filenames|
      invariant extended == checksumList + JobsAt(root, filenames[..j])
    {
      JobsAtSnoc(root, filenames, j);
      extended := extended + [Job(root, filenames[j])];
      j := j + 1;
    }
    assert filenames[..j] == filenames;
  }

  /** Lines 120-138: the `[root, name]` pairs of `checksum_list`, one walk
    * step at a time, each step's names filtered before they are added. */
  method CollectChecksumList(manifestDir: string, at: Option<Node>) returns (checksumList: seq<Job>)
    ensures checksumList == ChecksumList(manifestDir, at)
  {
    checksumList := [];
    match at {
      case None =>
      case Some(File(_, content)) =>
        checksumList := [Job(Dirname(manifestDir), FileEntry(Basename(manifestDir), content))];
      case Some(Dir(_, children)) =>
        var steps := Walk([], children, ManifestKeepsDir);
        var i := 0;
        while i < |steps|
          invariant 0 <= i <= |steps|
          invariant checksumList == WalkJobs(manifestDir, steps[..i])
        {
          var root := Root(manifestDir, steps[i].dirs);
          var filenames := KeptFiles(root, steps[i].files);
          checksumList := AppendJobs(checksumList, root, filenames);
          WalkJobsAppend(manifestDir, steps[..i], [steps[i]]);
          assert steps[..i + 1] == steps[..i] + [steps[i]];
          i := i + 1;
        }
        assert steps[..i] == steps;
    }
  }

  lemma MapLinesSnoc<T>(xs: seq<T>, k: nat, f: T -> string)
    requires k < |xs|
    ensures MapLines(xs[..k + 1], f) == MapLines(xs[..k], f) + [f(xs[k])]
  {
    assert xs[..k + 1][..k] == xs[..k];
  }

  /** Lines 139-154: `manifest_generator`, one newline-terminated line per
    * pair, each digest cut from what `hashlib_md5` returns. */
  method Generate(checksumList: seq<Job>, pathToRemove: string, md5: string -> Digest) returns (generator: string)
    ensures generator == Unlines(GeneratedLines(checksumList, pathToRemove, md5))
  {
    generator := "";
    var k := 0;
    while k < |checksumList|
      invariant 0 <= k <= |checksumList|
      invariant generator == Unlines(GeneratedLines(checksumList[..k], pathToRemove, md5))
    {
      var job := checksumList[k];
      var hashed := HashFile(job.file.content, Join(job.root, job.file.name), md5);
      var root2 := RemoveAll(job.root, pathToRemove);
      root2 := StripLeadingSeparator(root2);
      var line := Take(hashed, DigestWidth) + "  " + ToSlashes(Join(root2, job.file.name));
      assert line == EntryLine(job, pathToRemove, md5);
      MapLinesSnoc(checksumList, k, LineOf(pathToRemove, md5));
      UnlinesAppend(GeneratedLines(checksumList[..k], pathToRemove, md5), line);
      generator := generator + line + "\n";
      k := k + 1;
    }
    assert checksumList[..k] == checksumList;
  }

  /** Lines 159-161: every line written followed by a newline. */
  method WriteLines(lines: seq<string>) returns (written: string)
    ensures written == Unlines(lines)
  {
    written := "";
    var w := 0;
    while w < |lines|
      invariant 0 <= w <= |lines|
      invariant written == Unlines(lines[..w])
    {
      UnlinesAppend(lines[..w], lines[w]);
      assert lines[..w + 1] == lines[..w] + [lines[w]];
      written := written + lines[w] + "\n";
      w := w + 1;
    }
    assert lines[..w] == lines;
  }

  /** `make_manifest(manifest_dir, manifest_textfile, path_to_remove)`:
    * `at` is what lies at `manifest_dir`. Returns the text written and
    * `files_in_manifest`, the number of lines `splitlines` found. */
  method MakeManifest(manifestDir: string, at: Option<Node>, pathToRemove: string, md5: string -> Digest)
    returns (written: string, filesInManifest: nat)
    ensures written == ManifestText(manifestDir, at, pathToRemove, md5)
    ensures filesInManifest == |ManifestList(manifestDir, at, pathToRemove, md5)|
  {
    var checksumList := CollectChecksumList(manifestDir, at);
    var generator := Generate(checksumList, pathToRemove, md5);
    var manifestList := SplitLines(generator);
    filesInManifest := |manifestList|;
    manifestList := SortByPath(manifestList);
    written := WriteLines(manifestList);
  }

  // ---------------------------------------------------------------------
  // What the manifest holds

  lemma {:induction false} MapLinesAt<T>(xs: seq<T>, f: T -> string, i: nat)
    requires i < |xs|
    ensures MapLines(xs, f)[i] == f(xs[i])
    decreases |xs|
  {
    if i < |xs| - 1 {
      MapLinesAt(xs[..|xs| - 1], f, i);
    }
  }

  lemma {:induction false} MapLinesAppend<T>(a: seq<T>, b: seq<T>, f: T -> string)
    ensures MapLines(a + b, f) == MapLines(a, f) + MapLines(b, f)
    decreases |b|
  {
    if b == [] {
      assert a + b == a;
    } else {
      var ab := a + b;
      assert ab[..|ab| - 1] == a + b[..|b| - 1];
      assert ab[|ab| - 1] == b[|b| - 1];
      MapLinesAppend(a, b[..|b| - 1], f);
    }
  }

  /** A manifest line is the file's digest, two spaces and its path, and the
    * sort key `x[34:]` is exactly that path. */
  lemma EntryLineLayout(job: Job, pathToRemove: string, md5: string -> Digest)
    ensures var line := EntryLine(job, pathToRemove, md5);
      |line| >= PathColumn
      && Take(line, DigestWidth) == md5(job.file.content)
      && line[DigestWidth..PathColumn] == "  "
      && PathKey(line) == RelPath(job.root, job.file.name, pathToRemove)
  {
    var line := EntryLine(job, pathToRemove, md5);
    var rel := RelPath(job.root, job.file.name, pathToRemove);
    assert line == (md5(job.file.content) + "  ") + rel;
    assert line[..PathColumn] == md5(job.file.content) + "  ";
    assert line[PathColumn..] == rel;
  }

  /** The digest and the separator hold no line break, so a line breaks
    * exactly when its path does. */
  lemma EntryLineBreaks(job: Job, pathToRemove: string, md5: string -> Digest)
    ensures NoLineBreak(EntryLine(job, pathToRemove, md5)) <==> NoLineBreak(RelPath(job.root, job.file.name, pathToRemove))
  {
    DigestLineBreaks(md5(job.file.content), RelPath(job.root, job.file.name, pathToRemove));
  }

  /** A line made of a digest, the separator and a path breaks exactly
    * when the path does. */
  lemma DigestLineBreaks(d: Digest, rel: string)
    ensures NoLineBreak(d + "  " + rel) <==> NoLineBreak(rel)
  {
    DigestUnbroken(d);
    NoLineBreakAppend(d, "  ");
    NoLineBreakAppend(d + "  ", rel);
  }

  /** A digest is hexadecimal, so it holds no line break. */
  lemma DigestUnbroken(d: Digest)
    ensures NoLineBreak(d)
  {
    forall i | 0 <= i < |d|
      ensures !IsLineBreak(d[i])
    {
      assert IsHexDigit(d[i]);
    }
  }

  /** When no path holds a line break, `splitlines` gives back exactly the
    * generated lines, so `files_in_manifest` is the number of files hashed. */
  lemma ManifestListIsEntries(top: string, at: Option<Node>, pathToRemove: string, md5: string -> Digest)
    requires forall j :: j in ChecksumList(top, at) ==> NoLineBreak(RelPath(j.root, j.file.name, pathToRemove))
    ensures ManifestList(top, at, pathToRemove, md5) == GeneratedLines(ChecksumList(top, at), pathToRemove, md5)
    ensures |ManifestList(top, at, pathToRemove, md5)| == |ChecksumList(top, at)|
  {
    var jobs := ChecksumList(top, at);
    var lines := GeneratedLines(jobs, pathToRemove, md5);
    forall k | 0 <= k < |lines|
      ensures NoLineBreak(lines[k])
    {
      MapLinesAt(jobs, LineOf(pathToRemove, md5), k);
      EntryLineBreaks(jobs[k], pathToRemove, md5);
    }
    SplitLinesOfUnlines(lines);
  }

  /** Lines without line breaks, sorted and written, read back sorted, as
    * a permutation, each with its newline. */
  lemma {:induction false} SortedLinesReadBack(listed: seq<string>)
    requires forall k :: 0 <= k < |listed| ==> NoLineBreak(listed[k])
    ensures var written := SortByPath(listed);
      ReadLines(Unlines(written)) == WithNewlines(written)
      && SortedByPath(written)
      && multiset(written) == multiset(listed)
  {
    var written := SortByPath(listed);
    SortByPathCorrect(listed);
    forall k | 0 <= k < |written|
      ensures '\n' !in written[k]
    {
      assert written[k] in multiset(listed);
      var m :| 0 <= m < |listed| && listed[m] == written[k];
      assert NoLineBreak(listed[m]);
    }
    ReadLinesOfUnlines(written);
  }

  /** The written manifest reads back as the `splitlines` lines, each with a
    * newline, sorted by path, each line as often as it was generated. */
  lemma WrittenManifest(top: string, at: Option<Node>, pathToRemove: string, md5: string -> Digest)
    ensures var listed := ManifestList(top, at, pathToRemove, md5);
      var written := SortByPath(listed);
      ReadLines(ManifestText(top, at, pathToRemove, md5)) == WithNewlines(written)
      && SortedByPath(written)
      && multiset(written) == multiset(listed)
  {
    SortedLinesReadBack(ManifestList(top, at, pathToRemove, md5));
  }

  // ---------------------------------------------------------------------
  // Which files are hashed, stated without the walk

  /** The jobs of a file listing: each file below a directory whose path
    * passes `HashesFile`, in listing order. */
  function SelectJobs(top: string, ls: seq<Located>): (jobs: seq<Job>)
    ensures |jobs| <= |ls|
  {
    if ls == [] then [] else SelectOne(top, ls[0]) + SelectJobs(top, ls[1..])
  }

  /** The job of one listed file, if the filter keeps it. */
  function SelectOne(top: string, l: Located): (jobs: seq<Job>)
    ensures |jobs| <= 1
  {
    var root := Root(top, l.dirs);
    if HashesFile(root, l.file.name) then [Job(root, l.file)] else []
  }

  lemma {:induction false} SelectJobsAppend(top: string, a: seq<Located>, b: seq<Located>)
    ensures SelectJobs(top, a + b) == SelectJobs(top, a) + SelectJobs(top, b)
  {
    if a == [] {
      assert a + b == b;
    } else {
      assert (a + b)[0] == a[0];
      assert (a + b)[1..] == a[1..] + b;
      SelectJobsAppend(top, a[1..], b);
    }
  }

  lemma JobsAtSnoc(root: string, kept: seq<FileEntry>, j: nat)
    requires j < |kept|
    ensures JobsAt(root, kept[..j + 1]) == JobsAt(root, kept[..j]) + [Job(root, kept[j])]
  {
    var l, r := JobsAt(root, kept[..j + 1]), JobsAt(root, kept[..j]) + [Job(root, kept[j])];
    forall i | 0 <= i < |l|
      ensures l[i] == r[i]
    {
    }
  }

  lemma JobsAtAppend(root: string, a: seq<FileEntry>, b: seq<FileEntry>)
    ensures JobsAt(root, a + b) == JobsAt(root, a) + JobsAt(root, b)
  {
    var l, r := JobsAt(root, a + b), JobsAt(root, a) + JobsAt(root, b);
    forall i | 0 <= i < |l|
      ensures l[i] == r[i]
    {
    }
  }

  lemma {:induction false} StepJobsIsSelect(top: string, dirs: seq<string>, files: seq<FileEntry>)
    ensures StepJobs(top, Step(dirs, files)) == SelectJobs(top, Place(dirs, files))
  {
    if files != [] {
      var root := Root(top, dirs);
      var h := if HashesFile(root, files[0].name) then [files[0]] else [];
      var rest := KeptFiles(root, files[1..]);
      assert KeptFiles(root, files) == h + rest;
      StepJobsIsSelect(top, dirs, files[1..]);
      JobsAtAppend(root, h, rest);
      JobsAtOne(top, dirs, files[0]);
      assert Place(dirs, files) == [Located(dirs, files[0])] + Place(dirs, files[1..]);
    }
  }

  /** The job of one file, or none, is what the filter selects for it. */
  lemma JobsAtOne(top: string, dirs: seq<string>, f: FileEntry)
    ensures var root := Root(top, dirs);
      JobsAt(root, if HashesFile(root, f.name) then [f] else []) == SelectOne(top, Located(dirs, f))
  {
    var root := Root(top, dirs);
    if HashesFile(root, f.name) {
      assert JobsAt(root, [f]) == [Job(root, f)];
    } else {
      assert JobsAt(root, []) == [];
    }
  }

  lemma {:induction false} WalkJobsIsSelect(top: string, steps: seq<Step>)
    ensures WalkJobs(top, steps) == SelectJobs(top, Flatten(steps))
  {
    if steps != [] {
      WalkJobsIsSelect(top, steps[1..]);
      StepJobsIsSelect(top, steps[0].dirs, steps[0].files);
      SelectJobsAppend(top, Place(steps[0].dirs, steps[0].files), Flatten(steps[1..]));
    }
  }

  /** For a directory, the files hashed are those of the full listing that
    * lie below no hidden directory and pass the file filter, in walk order. */
  lemma ChecksumListIsFilteredListing(top: string, name: string, children: seq<Node>)
    ensures ChecksumList(top, Some(Dir(name, children)))
         == SelectJobs(top, ReachableOnly(AllFiles([], children), ManifestKeepsDir))
  {
    WalkIsPrunedListing([], children, ManifestKeepsDir);
    WalkJobsIsSelect(top, Walk([], children, ManifestKeepsDir));
  }

  /** Below the top, only the file's own directory is compared with
    * `System Volume Information`: files in its subdirectories are hashed. */
  lemma HashesFileChecksParentOnly(top: string, dirs: seq<string>, name: string)
    requires dirs != [] && ValidName(dirs[|dirs| - 1])
    ensures HashesFile(Root(top, dirs), name)
        <==> dirs[|dirs| - 1] != SystemVolume && name != [] && name[0] != '.'
  {
    BasenameOfJoin(Root(top, dirs[..|dirs| - 1]), dirs[|dirs| - 1]);
  }

  /** A file whose name holds a newline is one job but two `splitlines`
    * lines, so `files_in_manifest` is then larger than the number of files. */
  lemma NewlineInNameMiscounts(md5: string -> Digest)
    ensures var at := Some(Dir("t", [File("a\nb", "")]));
      |ChecksumList("/t", at)| == 1 && |ManifestList("/t", at, "/t", md5)| == 2
  {
    var at := Some(Dir("t", [File("a\nb", "")]));
    var job := Job("/t", FileEntry("a\nb", ""));
    NewlineExampleJobs();
    assert ValidName("a\nb") && '\\' !in "a\nb";
    GeneratedAtTop("/t", "a\nb", "", md5);
    NewlineExampleSplit(md5(""));
    ManifestListOf("/t", at, "/t", md5, [job], [md5("") + "  " + "a\nb"]);
  }

  /** A single file directly inside the walked directory gives one line:
    * its digest, two spaces and its bare name. */
  lemma GeneratedAtTop(top: string, name: string, content: string, md5: string -> Digest)
    requires top != [] && ValidName(name) && '\\' !in name
    ensures GeneratedLines([Job(top, FileEntry(name, content))], top, md5) == [md5(content) + "  " + name]
  {
    RelPathOfTop(top, name);
    GeneratedSingle(Job(top, FileEntry(name, content)), top, md5);
  }

  lemma GeneratedSingle(job: Job, pathToRemove: string, md5: string -> Digest)
    ensures GeneratedLines([job], pathToRemove, md5) == [EntryLine(job, pathToRemove, md5)]
  {
    MapLinesAt([job], LineOf(pathToRemove, md5), 0);
  }

  lemma ManifestListOf(top: string, at: Option<Node>, pathToRemove: string, md5: string -> Digest, jobs: seq<Job>, lines: seq<string>)
    requires ChecksumList(top, at) == jobs && GeneratedLines(jobs, pathToRemove, md5) == lines
    ensures ManifestList(top, at, pathToRemove, md5) == SplitLines(Unlines(lines))
  {
  }

  lemma NewlineExampleJobs()
    ensures ChecksumList("/t", Some(Dir("t", [File("a\nb", "")]))) == [Job("/t", FileEntry("a\nb", ""))]
  {
    var children := [File("a\nb", "")];
    assert FilesOf(children) == [FileEntry("a\nb", "")] by {
      assert FilesOf(children[1..]) == [];
    }
    assert WalkSubdirs([], children, ManifestKeepsDir) == [];
    var steps := Walk([], children, ManifestKeepsDir);
    assert steps == [Step([], [FileEntry("a\nb", "")])];
    assert Root("/t", []) == "/t";
    assert TailStart("/t") == 1 by {
      assert "/t"[..1] == "/";
    }
    assert Basename("/t") == "t";
    assert KeptFiles("/t", [FileEntry("a\nb", "")]) == [FileEntry("a\nb", "")];
    assert WalkJobs("/t", steps[1..]) == [];
  }

  /** A file directly inside the walked directory, with that directory as
    * `path_to_remove`: the relative path is the bare name. */
  lemma RelPathOfTop(top: string, name: string)
    requires top != [] && ValidName(name) && '\\' !in name
    ensures RelPath(top, name, top) == name
  {
    assert top + [] == top;
    RemoveAllLeading(top, []);
    ToSlashesNoBackslash(name);
  }

  lemma NewlineExampleSplit(d: Digest)
    ensures SplitLines(Unlines([d + "  " + "a\nb"])) == [d + "  a", "b"]
  {
    var first := d + "  a";
    DigestUnbroken(d);
    NoLineBreakAppend(d, "  a");
    NewlineExampleText(d);
    SplitLinesAfterLine(first, "b\n");
    NewlineExampleRest();
  }

  lemma NewlineExampleText(d: Digest)
    ensures Unlines([d + "  " + "a\nb"]) == (d + "  a") + "\n" + "b\n"
  {
    assert Unlines([d + "  " + "a\nb"]) == d + "  " + "a\nb" + "\n" + Unlines([]);
    assert "  " + "a\nb" + "\n" == "  a" + "\n" + "b\n";
  }

  lemma NewlineExampleRest()
    ensures SplitLines("b\n") == ["b"]
  {
    assert Unlines(["b"]) == "b\n";
    SplitLinesOfUnlines(["b"]);
  }
}
