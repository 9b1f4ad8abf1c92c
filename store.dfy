/**
 * Deciding whether an existing source manifest is up to date:
 * `count_stuff` counts the files of the source directory,
 * `manifest_file_count` reads an existing manifest, and
 * `manifest_existence` picks the first manifest that exists and aborts
 * when its line count differs from the directory's file count.
 */
module ManifestStore {
  import opened Common
  import opened PyStr
  import opened PosixPath
  import opened FileTree
  import opened Sorting
  import opened ManifestBuilder
  import opened Reports

  // ---------------------------------------------------------------------
  // count_stuff

  /** Line 420: hidden directories are not entered. */
  predicate CountKeepsDir(d: string) {
    d != [] && d[0] != '.'
  }

  /** Line 419: hidden files are not counted. */
  predicate CountsFile(name: string) {
    name != [] && name[0] != '.'
  }

  /** `[f for f in filenames if f[0] != '.']`. */
  function VisibleFiles(files: seq<FileEntry>): (names: seq<string>)
    ensures |names| <= |files|
  {
    if files == [] then []
    else (if CountsFile(files[0].name) then [files[0].name] else []) + VisibleFiles(files[1..])
  }

  /** The visible names of a walk, step after step. */
  function WalkNames(steps: seq<Step>): seq<string> {
    if steps == [] then [] else VisibleFiles(steps[0].files) + WalkNames(steps[1..])
  }

  /** `file_list` of `count_stuff`; walking anything but a directory
    * yields nothing. */
  function CountedNames(at: Option<Node>): seq<string> {
    match at
    case Some(Dir(_, children)) => WalkNames(Walk([], children, CountKeepsDir))
    case _ => []
  }

  lemma {:induction false} WalkNamesAppend(a: seq<Step>, b: seq<Step>)
    ensures WalkNames(a + b) == WalkNames(a) + WalkNames(b)
  {
    if a == [] {
      assert a + b == b;
    } else {
      assert (a + b)[1..] == a[1..] + b;
      WalkNamesAppend(a[1..], b);
    }
  }

  /** Lines 421-423: one count and one name per visible file of a step. */
  method CountNames(sourceCount: nat, fileList: seq<string>, filenames: seq<string>)
    returns (count: nat, list: seq<string>)
    ensures list == fileList + filenames
    ensures count == sourceCount + |filenames|
  {
    count, list := sourceCount, fileList;
    var j := 0;
    while j < |filenames|
      invariant 0 <= j <= |filenames|
      invariant list == fileList + filenames[..j]
      invariant count == sourceCount + j
    {
      assert filenames[..j + 1] == filenames[..j] + [filenames[j]];
      count := count + 1;
      list := list + [filenames[j]];
      j := j + 1;
    }
    assert filenames[..j] == filenames;
  }

  /** `count_stuff(source)`: `at` is what lies at `source`. The count is
    * the number of names listed. */
  method CountStuff(at: Option<Node>) returns (sourceCount: nat, fileList: seq<string>)
    ensures fileList == CountedNames(at)
    ensures sourceCount == |fileList|
  {
    sourceCount, fileList := 0, [];
    match at {
      case None =>
      case Some(File(_, _)) =>
      case Some(Dir(_, children)) =>
        var steps := Walk([], children, CountKeepsDir);
        var i := 0;
        while i < |steps|
          invariant 0 <= i <= |steps|
          invariant fileList == WalkNames(steps[..i])
          invariant sourceCount == |fileList|
        {
          var filenames := VisibleFiles(steps[i].files);
          sourceCount, fileList := CountNames(sourceCount, fileList, filenames);
          WalkNamesAppend(steps[..i], [steps[i]]);
          assert steps[..i + 1] == steps[..i] + [steps[i]];
          i := i + 1;
        }
        assert steps[..i] == steps;
    }
  }

  /** The visible names of a file listing, in order. */
  function LocatedNames(ls: seq<Located>): (names: seq<string>)
    ensures |names| <= |ls|
  {
    if ls == [] then []
    else (if CountsFile(ls[0].file.name) then [ls[0].file.name] else []) + LocatedNames(ls[1..])
  }

  lemma {:induction false} LocatedNamesAppend(a: seq<Located>, b: seq<Located>)
    ensures LocatedNames(a + b) == LocatedNames(a) + LocatedNames(b)
  {
    if a == [] {
      assert a + b == b;
    } else {
      assert (a + b)[1..] == a[1..] + b;
      LocatedNamesAppend(a[1..], b);
    }
  }

  lemma {:induction false} VisibleFilesIsPlaced(dirs: seq<string>, files: seq<FileEntry>)
    ensures VisibleFiles(files) == LocatedNames(Place(dirs, files))
  {
    if files != [] {
      VisibleFilesIsPlaced(dirs, files[1..]);
      assert Place(dirs, files)[1..] == Place(dirs, files[1..]);
    }
  }

  lemma {:induction false} WalkNamesIsListing(steps: seq<Step>)
    ensures WalkNames(steps) == LocatedNames(Flatten(steps))
  {
    if steps != [] {
      WalkNamesIsListing(steps[1..]);
      VisibleFilesIsPlaced(steps[0].dirs, steps[0].files);
      LocatedNamesAppend(Place(steps[0].dirs, steps[0].files), Flatten(steps[1..]));
    }
  }

  /** `count_stuff` lists the visible files lying below no hidden
    * directory, in the order of the full listing. */
  lemma CountedNamesIsFilteredListing(name: string, children: seq<Node>)
    ensures CountedNames(Some(Dir(name, children)))
         == LocatedNames(ReachableOnly(AllFiles([], children), CountKeepsDir))
  {
    WalkIsPrunedListing([], children, CountKeepsDir);
    WalkNamesIsListing(Walk([], children, CountKeepsDir));
  }

  /** The file does not sit directly inside a folder below the top that is
    * named `System Volume Information`. */
  predicate OutsideSystemVolume(l: Located) {
    l.dirs != [] ==> ValidName(l.dirs[|l.dirs| - 1]) && l.dirs[|l.dirs| - 1] != SystemVolume
  }

  lemma {:induction false} SelectJobsCount(top: string, ls: seq<Located>)
    requires Basename(top) != SystemVolume
    requires forall l :: l in ls ==> OutsideSystemVolume(l)
    ensures |SelectJobs(top, ls)| == |LocatedNames(ls)|
  {
    if ls != [] {
      assert ls[0] in ls;
      SelectOneCount(top, ls[0]);
      assert forall m :: m in ls[1..] ==> m in ls;
      SelectJobsCount(top, ls[1..]);
      var h := if CountsFile(ls[0].file.name) then [ls[0].file.name] else [];
      assert SelectJobs(top, ls) == SelectOne(top, ls[0]) + SelectJobs(top, ls[1..]);
      assert LocatedNames(ls) == h + LocatedNames(ls[1..]);
      SameLengths(SelectJobs(top, ls), SelectOne(top, ls[0]), SelectJobs(top, ls[1..]),
                  LocatedNames(ls), h, LocatedNames(ls[1..]));
    } else {
      assert SelectJobs(top, ls) == [] && LocatedNames(ls) == [];
    }
  }

  lemma SameLengths<A, B>(x: seq<A>, x1: seq<A>, x2: seq<A>, y: seq<B>, y1: seq<B>, y2: seq<B>)
    requires x == x1 + x2 && y == y1 + y2 && |x1| == |y1| && |x2| == |y2|
    ensures |x| == |y|
  {
  }

  /** One file outside `System Volume Information` is hashed exactly when it is counted. */
  lemma SelectOneCount(top: string, l: Located)
    requires Basename(top) != SystemVolume && OutsideSystemVolume(l)
    ensures |SelectOne(top, l)| == (if CountsFile(l.file.name) then 1 else 0)
  {
    var root := Root(top, l.dirs);
    if l.dirs != [] {
      HashesFileChecksParentOnly(top, l.dirs, l.file.name);
      assert l.dirs[|l.dirs| - 1] != SystemVolume;
      assert HashesFile(root, l.file.name) == CountsFile(l.file.name);
    } else {
      assert root == top;
      assert HashesFile(root, l.file.name) == CountsFile(l.file.name);
    }
    if HashesFile(root, l.file.name) {
      assert SelectOne(top, l) == [Job(root, l.file)];
    } else {
      assert SelectOne(top, l) == [];
    }
  }

  /** `count_stuff` and `make_manifest` count the same files of a directory
    * unless a folder named `System Volume Information` holds files itself:
    * `make_manifest` skips those, `count_stuff` counts them. */
  lemma CountMatchesChecksumList(top: string, name: string, children: seq<Node>)
    requires Basename(top) != SystemVolume
    requires forall l :: l in AllFiles([], children) ==> OutsideSystemVolume(l)
    ensures |ChecksumList(top, Some(Dir(name, children)))| == |CountedNames(Some(Dir(name, children)))|
  {
    var ls := AllFiles([], children);
    ChecksumListIsFilteredListing(top, name, children);
    CountedNamesIsFilteredListing(name, children);
    forall d
      ensures ManifestKeepsDir(d) == CountKeepsDir(d)
    {
      ManifestPruningIsDotOnly(d);
    }
    ReachableOnlySameKeep(ls, ManifestKeepsDir, CountKeepsDir);
    SelectJobsCount(top, ReachableOnly(ls, CountKeepsDir));
  }

  // ---------------------------------------------------------------------
  // manifest_file_count

  /** `[count_in_manifest, manifest_files]`. */
  datatype ManifestInfo = ManifestInfo(count: nat, files: seq<string>)

  /** `a.split('\\')[-1].rsplit()[0]`; `None` is the `IndexError` raised
    * when the last part is all whitespace. */
  function PieceName(piece: string): Option<string> {
    var parts := Split(piece, '\\');
    FirstWord(parts[|parts| - 1])
  }

  /** The names of one line's comma-separated pieces, in order, or `None`
    * when one of them has none. */
  function PieceNames(pieces: seq<string>): Option<seq<string>> {
    if pieces == [] then Some([])
    else
      match PieceNames(pieces[..|pieces| - 1])
      case None => None
      case Some(names) =>
        match PieceName(pieces[|pieces| - 1])
        case None => None
        case Some(w) => Some(names + [w])
  }

  /** `[line.split(',') for line in lines]`. */
  function FieldsOf(lines: seq<string>): (fields: seq<seq<string>>)
    ensures |fields| == |lines|
  {
    seq(|lines|, k requires 0 <= k < |lines| => Split(lines[k], ','))
  }

  /** `[line.split(',') for line in fo.readlines()]`. */
  function Fields(content: string): (fields: seq<seq<string>>)
    ensures |fields| == |ReadLines(content)|
  {
    FieldsOf(ReadLines(content))
  }

  /** The names of every line, line after line, or `None` as soon as one
    * piece has none. */
  function FieldNames(fields: seq<seq<string>>): Option<seq<string>> {
    if fields == [] then Some([])
    else
      match FieldNames(fields[..|fields| - 1])
      case None => None
      case Some(names) =>
        match PieceNames(fields[|fields| - 1])
        case None => None
        case Some(more) => Some(names + more)
  }

  /** What `manifest_file_count` returns for a manifest holding `content`;
    * `None` when it raises `IndexError`. */
  function ManifestInfoOf(content: string): Option<ManifestInfo> {
    var fields := Fields(content);
    match FieldNames(fields)
    case None => None
    case Some(files) => Some(ManifestInfo(|fields|, files))
  }

  lemma {:induction false} PieceNamesFails(pieces: seq<string>, i: nat)
    requires i <= |pieces| && PieceNames(pieces[..i]).None?
    ensures PieceNames(pieces).None?
    decreases |pieces| - i
  {
    if i < |pieces| {
      assert pieces[..i + 1][..i] == pieces[..i];
      PieceNamesFails(pieces, i + 1);
    } else {
      assert pieces[..i] == pieces;
    }
  }

  lemma {:induction false} FieldNamesFails(fields: seq<seq<string>>, i: nat)
    requires i <= |fields| && FieldNames(fields[..i]).None?
    ensures FieldNames(fields).None?
    decreases |fields| - i
  {
    if i < |fields| {
      assert fields[..i + 1][..i] == fields[..i];
      FieldNamesFails(fields, i + 1);
    } else {
      assert fields[..i] == fields;
    }
  }

  /** One more piece: its name follows the names of the pieces before it,
    * or the line fails when it has none. */
  lemma PieceNamesStep(pieces: seq<string>, j: nat, names: seq<string>)
    requires j < |pieces| && PieceNames(pieces[..j]) == Some(names)
    ensures PieceName(pieces[j]).None? ==> PieceNames(pieces[..j + 1]).None?
    ensures PieceName(pieces[j]).Some? ==> PieceNames(pieces[..j + 1]) == Some(names + [PieceName(pieces[j]).value])
  {
    assert pieces[..j + 1][..j] == pieces[..j];
    assert pieces[..j + 1][j] == pieces[j];
  }

  lemma AppendAssoc(a: seq<string>, b: seq<string>, w: string)
    ensures a + b + [w] == a + (b + [w])
  {
  }

  /** Lines 304-306 for one line: each piece's name appended to `files`;
    * `None` is the `IndexError`. */
  method AppendPieceNames(files: seq<string>, pieces: seq<string>) returns (extended: Option<seq<string>>)
    ensures PieceNames(pieces).None? ==> extended.None?
    ensures PieceNames(pieces).Some? ==> extended == Some(files + PieceNames(pieces).value)
  {
    var names := files;
    var j := 0;
    while j < |pieces|
      invariant 0 <= j <= |pieces|
      invariant PieceNames(pieces[..j]).Some?
      invariant names == files + PieceNames(pieces[..j]).value
    {
      var w := PieceName(pieces[j]);
      PieceNamesStep(pieces, j, PieceNames(pieces[..j]).value);
      if w.None? {
        PieceNamesFails(pieces, j + 1);
        return None;
      }
      AppendAssoc(files, PieceNames(pieces[..j]).value, w.value);
      names := names + [w.value];
      j := j + 1;
    }
    assert pieces[..j] == pieces;
    extended := Some(names);
  }

  /** `manifest_file_count` on a file holding `content`. */
  method ManifestFileCount(content: string) returns (info: Option<ManifestInfo>)
    ensures info == ManifestInfoOf(content)
  {
    var manifestLines := Fields(content);
    var manifestFiles: seq<string> := [];
    var i := 0;
    while i < |manifestLines|
      invariant 0 <= i <= |manifestLines|
      invariant FieldNames(manifestLines[..i]) == Some(manifestFiles)
    {
      var extended := AppendPieceNames(manifestFiles, manifestLines[i]);
      FieldNamesStep(manifestLines, i, manifestFiles);
      if extended.None? {
        FieldNamesFails(manifestLines, i + 1);
        return None;
      }
      manifestFiles := extended.value;
      i := i + 1;
    }
    assert manifestLines[..i] == manifestLines;
    info := Some(ManifestInfo(|manifestLines|, manifestFiles));
  }

  /** One more manifest line: its names follow those of the lines before. */
  lemma FieldNamesStep(fields: seq<seq<string>>, i: nat, files: seq<string>)
    requires i < |fields| && FieldNames(fields[..i]) == Some(files)
    ensures PieceNames(fields[i]).None? ==> FieldNames(fields[..i + 1]).None?
    ensures PieceNames(fields[i]).Some? ==> FieldNames(fields[..i + 1]) == Some(files + PieceNames(fields[i]).value)
  {
    assert fields[..i + 1] == fields[..i] + [fields[i]];
    FieldNamesSnoc(fields[..i], fields[i]);
  }

  // ---------------------------------------------------------------------
  // Reading back a manifest make_manifest wrote

  /** A path holding no comma, backslash or line break. */
  predicate PlainPath(p: string) {
    forall i :: 0 <= i < |p| ==> p[i] != ',' && p[i] != '\\' && !IsLineBreak(p[i])
  }

  /** A line as `make_manifest` writes it for a plain path: 32 hexadecimal
    * digits, two spaces, the path. */
  predicate EntryShaped(line: string) {
    |line| >= PathColumn
    && (forall i :: 0 <= i < DigestWidth ==> IsHexDigit(line[i]))
    && line[DigestWidth] == ' ' && line[DigestWidth + 1] == ' '
    && PlainPath(line[PathColumn..])
  }

  lemma {:induction false} TokenOfWord(w: string, rest: string)
    requires forall k :: 0 <= k < |w| ==> !IsSpace(w[k])
    requires rest != [] && IsSpace(rest[0])
    ensures Token(w + rest) == w
  {
    if w != [] {
      assert (w + rest)[1..] == w[1..] + rest;
      TokenOfWord(w[1..], rest);
    }
  }

  /** The first 32 characters of each line. */
  function Digests(lines: seq<string>): (ds: seq<string>)
    ensures |ds| == |lines|
  {
    seq(|lines|, k requires 0 <= k < |lines| => Take(lines[k], DigestWidth))
  }

  /** For a line of such a manifest, the "file name" read back is the
    * digest: the path holds no backslash, so the first word is taken from
    * the start of the line. */
  lemma PieceNameOfEntry(line: string)
    requires EntryShaped(line)
    ensures Split(line + "\n", ',') == [line + "\n"]
    ensures PieceName(line + "\n") == Some(Take(line, DigestWidth))
  {
    var s := line + "\n";
    forall i | 0 <= i < |s|
      ensures s[i] != ',' && s[i] != '\\'
    {
      if PathColumn <= i < |line| {
        assert s[i] == line[PathColumn..][i - PathColumn];
      }
    }
    SplitAbsent(s, ',');
    SplitAbsent(s, '\\');
    var d := line[..DigestWidth];
    assert s == d + s[DigestWidth..];
    TokenOfWord(d, s[DigestWidth..]);
  }

  lemma PieceNamesSingle(piece: string)
    ensures PieceName(piece).None? ==> PieceNames([piece]).None?
    ensures PieceName(piece).Some? ==> PieceNames([piece]) == Some([PieceName(piece).value])
  {
    assert [piece][..0] == [];
    if PieceName(piece).Some? {
      assert [] + [PieceName(piece).value] == [PieceName(piece).value];
    }
  }

  lemma {:induction false} FieldNamesOfEntries(lines: seq<string>)
    requires forall k :: 0 <= k < |lines| ==> EntryShaped(lines[k])
    ensures FieldNames(FieldsOf(WithNewlines(lines))) == Some(Digests(lines))
    decreases |lines|
  {
    if lines != [] {
      var init, last := lines[..|lines| - 1], lines[|lines| - 1];
      assert lines == init + [last];
      assert forall k :: 0 <= k < |init| ==> init[k] == lines[k];
      FieldNamesOfEntries(init);
      PieceNameOfEntry(last);
      PieceNamesSingle(last + "\n");
      FieldsOfSnoc(init, last);
      FieldNamesSnoc(FieldsOf(WithNewlines(init)), [last + "\n"]);
      DigestsSnoc(init, last);
    }
  }

  lemma FieldsOfSnoc(init: seq<string>, last: string)
    requires Split(last + "\n", ',') == [last + "\n"]
    ensures FieldsOf(WithNewlines(init + [last])) == FieldsOf(WithNewlines(init)) + [[last + "\n"]]
  {
    var l, r := FieldsOf(WithNewlines(init + [last])), FieldsOf(WithNewlines(init)) + [[last + "\n"]];
    forall k | 0 <= k < |l|
      ensures l[k] == r[k]
    {
      if k < |init| {
        assert (init + [last])[k] == init[k];
      }
    }
  }

  lemma FieldNamesSnoc(fields: seq<seq<string>>, last: seq<string>)
    ensures FieldNames(fields + [last]) ==
      match FieldNames(fields)
      case None => None
      case Some(names) =>
        match PieceNames(last)
        case None => None
        case Some(more) => Some(names + more)
  {
    assert (fields + [last])[..|fields|] == fields;
  }

  lemma DigestsSnoc(init: seq<string>, last: string)
    ensures Digests(init + [last]) == Digests(init) + [Take(last, DigestWidth)]
  {
    var l, r := Digests(init + [last]), Digests(init) + [Take(last, DigestWidth)];
    forall k | 0 <= k < |l|
      ensures l[k] == r[k]
    {
      if k < |init| {
        assert (init + [last])[k] == init[k];
      }
    }
  }

  /** Such a manifest holds no `\n` inside its lines. */
  lemma EntryShapedOneLine(line: string)
    requires EntryShaped(line)
    ensures '\n' !in line
  {
    forall i | 0 <= i < |line|
      ensures line[i] != '\n'
    {
      if i >= PathColumn {
        assert line[i] == line[PathColumn..][i - PathColumn];
      }
    }
  }

  /** A manifest whose lines all have this shape is read back as one entry
    * per line, and the names read back are the lines' digests. */
  lemma ManifestInfoOfEntries(lines: seq<string>)
    requires forall k :: 0 <= k < |lines| ==> EntryShaped(lines[k])
    ensures ManifestInfoOf(Unlines(lines)) == Some(ManifestInfo(|lines|, Digests(lines)))
  {
    forall k | 0 <= k < |lines|
      ensures '\n' !in lines[k]
    {
      EntryShapedOneLine(lines[k]);
    }
    ReadLinesOfUnlines(lines);
    FieldNamesOfEntries(lines);
  }

  /** A generated line whose path is plain has the shape above. */
  lemma EntryLineShaped(job: Job, pathToRemove: string, md5: string -> Digest)
    requires PlainPath(RelPath(job.root, job.file.name, pathToRemove))
    ensures EntryShaped(EntryLine(job, pathToRemove, md5))
  {
    EntryLineLayout(job, pathToRemove, md5);
    var line := EntryLine(job, pathToRemove, md5);
    var d := md5(job.file.content);
    assert forall i :: 0 <= i < DigestWidth ==> line[i] == d[i];
    assert line[PathColumn..] == PathKey(line);
  }

  /** Every generated line of plain paths has the shape above. */
  lemma GeneratedLinesShaped(jobs: seq<Job>, pathToRemove: string, md5: string -> Digest)
    requires forall j :: j in jobs ==> PlainPath(RelPath(j.root, j.file.name, pathToRemove))
    ensures forall k :: 0 <= k < |jobs| ==> EntryShaped(GeneratedLines(jobs, pathToRemove, md5)[k])
  {
    forall k | 0 <= k < |jobs|
      ensures EntryShaped(GeneratedLines(jobs, pathToRemove, md5)[k])
    {
      MapLinesAt(jobs, LineOf(pathToRemove, md5), k);
      EntryLineShaped(jobs[k], pathToRemove, md5);
    }
  }

  /** Sorting keeps every line's shape. */
  lemma SortedShaped(listed: seq<string>)
    requires forall k :: 0 <= k < |listed| ==> EntryShaped(listed[k])
    ensures |SortByPath(listed)| == |listed|
    ensures forall k :: 0 <= k < |SortByPath(listed)| ==> EntryShaped(SortByPath(listed)[k])
  {
    var written := SortByPath(listed);
    SortByPathCorrect(listed);
    forall k | 0 <= k < |written|
      ensures EntryShaped(written[k])
    {
      assert written[k] in multiset(listed);
      var m :| 0 <= m < |listed| && listed[m] == written[k];
    }
    assert |multiset(written)| == |multiset(listed)|;
  }

  /** Reading back what `make_manifest` wrote: when every path is plain,
    * `manifest_file_count` finds one entry per file hashed, and the names
    * it collects are the digests of the written lines. */
  lemma FileCountOfWrittenManifest(top: string, at: Option<Node>, pathToRemove: string, md5: string -> Digest)
    requires forall j :: j in ChecksumList(top, at) ==> PlainPath(RelPath(j.root, j.file.name, pathToRemove))
    ensures ManifestInfoOf(ManifestText(top, at, pathToRemove, md5))
         == Some(ManifestInfo(|ChecksumList(top, at)|, Digests(SortByPath(ManifestList(top, at, pathToRemove, md5)))))
  {
    var jobs := ChecksumList(top, at);
    var listed := ManifestList(top, at, pathToRemove, md5);
    forall j | j in jobs
      ensures NoLineBreak(RelPath(j.root, j.file.name, pathToRemove))
    {
    }
    ManifestListIsEntries(top, at, pathToRemove, md5);
    GeneratedLinesShaped(jobs, pathToRemove, md5);
    SortedShaped(listed);
    ManifestInfoOfEntries(SortByPath(listed));
  }

  // ---------------------------------------------------------------------
  // manifest_existence

  /** What `manifest_existence` ends with: it returns `(proceed, count,
    * files)`, or it reports the differences and exits, or
    * `manifest_file_count` raises `IndexError`. */
  datatype Existence =
    | Checked(proceed: string, count: nat, files: seq<string>)
    | Stale(sourceCount: nat, count: nat, onlyInSource: seq<string>, onlyInManifest: seq<string>)
    | Unreadable

  /** The manifest consulted: the root one, else the sidecar, else the
    * desktop copy, whichever exists first. */
  function Chosen(fs: Fs, manifestRoot: string, manifestSidecar: string, manifest: string): (chosen: Option<string>)
    ensures chosen.Some? ==> chosen.value in fs.files
    ensures chosen.None? <==> manifestRoot !in fs.files && manifestSidecar !in fs.files && manifest !in fs.files
    ensures chosen.Some? ==> chosen.value in {manifestRoot, manifestSidecar, manifest}
    ensures manifestRoot in fs.files ==> chosen == Some(manifestRoot)
    ensures manifestRoot !in fs.files && manifestSidecar in fs.files ==> chosen == Some(manifestSidecar)
    ensures manifestRoot !in fs.files && manifestSidecar !in fs.files && manifest in fs.files ==> chosen == Some(manifest)
  {
    if manifestRoot in fs.files then Some(manifestRoot)
    else if manifestSidecar in fs.files then Some(manifestSidecar)
    else if manifest in fs.files then Some(manifest)
    else None
  }

  function ExistenceOf(fs: Fs, manifestRoot: string, manifestSidecar: string, manifest: string,
                       sourceCount: nat, fileList: seq<string>): (r: Existence)
    ensures Chosen(fs, manifestRoot, manifestSidecar, manifest).None? ==> r == Checked("n", 0, [])
    ensures r.Checked? && r.proceed == "y" ==> r.count == sourceCount
    ensures r.Stale? ==> r.count != sourceCount && r.sourceCount == sourceCount
    ensures var c := Chosen(fs, manifestRoot, manifestSidecar, manifest);
      c.Some? ==> (r.Unreadable? <==> ManifestInfoOf(fs.files[c.value]).None?)
    ensures var c := Chosen(fs, manifestRoot, manifestSidecar, manifest);
      c.Some? && ManifestInfoOf(fs.files[c.value]).Some? ==>
        var info := ManifestInfoOf(fs.files[c.value]).value;
        (r.Stale? <==> info.count != sourceCount)
        && (r.Stale? ==> r == Stale(sourceCount, info.count, Missing(fileList, info.files), Missing(info.files, fileList)))
        && (!r.Stale? ==> r == Checked("y", info.count, info.files))
  {
    match Chosen(fs, manifestRoot, manifestSidecar, manifest)
    case None => Checked("n", 0, [])
    case Some(path) =>
      match ManifestInfoOf(fs.files[path])
      case None => Unreadable
      case Some(info) =>
        if sourceCount != info.count then
          Stale(sourceCount, info.count, Missing(fileList, info.files), Missing(info.files, fileList))
        else Checked("y", info.count, info.files)
  }

  /** `manifest_existence(manifest_root, manifest_sidecar, manifest,
    * source_count, file_list)`. */
  method ManifestExistence(fs: Fs, manifestRoot: string, manifestSidecar: string, manifest: string,
                           sourceCount: nat, fileList: seq<string>) returns (outcome: Existence)
    ensures outcome == ExistenceOf(fs, manifestRoot, manifestSidecar, manifest, sourceCount, fileList)
  {
    var countInManifest := 0;
    var manifestFiles: seq<string> := [];
    var proceed := "n";
    var info: Option<ManifestInfo> := None;
    if manifestRoot in fs.files {
      proceed := "y";
      info := ManifestFileCount(fs.files[manifestRoot]);
    } else if manifestSidecar in fs.files {
      info := ManifestFileCount(fs.files[manifestSidecar]);
      proceed := "y";
    } else if manifest in fs.files {
      info := ManifestFileCount(fs.files[manifest]);
      proceed := "y";
    }
    if proceed == "y" {
      if info.None? {
        return Unreadable;
      }
      countInManifest := info.value.count;
      manifestFiles := info.value.files;
      if sourceCount != countInManifest {
        var onlyInSource := ReportMissing(fileList, manifestFiles);
        var onlyInManifest := ReportMissing(manifestFiles, fileList);
        return Stale(sourceCount, countInManifest, onlyInSource, onlyInManifest);
      }
    }
    outcome := Checked(proceed, countInManifest, manifestFiles);
  }

  /** An abort names exactly the directory's files the manifest lacks and
    * exactly the manifest's names the directory lacks. */
  lemma StaleReportsBothWays(fs: Fs, manifestRoot: string, manifestSidecar: string, manifest: string,
                             sourceCount: nat, fileList: seq<string>, x: string)
    requires ExistenceOf(fs, manifestRoot, manifestSidecar, manifest, sourceCount, fileList).Stale?
    ensures var r := ExistenceOf(fs, manifestRoot, manifestSidecar, manifest, sourceCount, fileList);
      var files := ManifestInfoOf(fs.files[Chosen(fs, manifestRoot, manifestSidecar, manifest).value]).value.files;
      (x in r.onlyInSource <==> x in fileList && x !in files)
      && (x in r.onlyInManifest <==> x in files && x !in fileList)
  {
    var files := ManifestInfoOf(fs.files[Chosen(fs, manifestRoot, manifestSidecar, manifest).value]).value.files;
    MissingMembers(fileList, files, x);
    MissingMembers(files, fileList, x);
  }

  /** Once the root manifest exists, the other two are never read. */
  lemma RootManifestWins(fs: Fs, manifestRoot: string, manifestSidecar: string, manifest: string,
                         sourceCount: nat, fileList: seq<string>, other: Fs)
    requires manifestRoot in fs.files && manifestRoot in other.files
    requires fs.files[manifestRoot] == other.files[manifestRoot]
    ensures ExistenceOf(fs, manifestRoot, manifestSidecar, manifest, sourceCount, fileList)
         == ExistenceOf(other, manifestRoot, manifestSidecar, manifest, sourceCount, fileList)
  {
  }

  /** A manifest `make_manifest` wrote for the same directory passes the
    * check: with plain paths and no files directly inside a folder named
    * `System Volume Information`, its line count is `count_stuff`'s count. */
  lemma FreshManifestIsNotStale(fs: Fs, manifestRoot: string, manifestSidecar: string, manifest: string,
                                top: string, name: string, children: seq<Node>, pathToRemove: string,
                                md5: string -> Digest)
    requires Basename(top) != SystemVolume
    requires forall l :: l in AllFiles([], children) ==> OutsideSystemVolume(l)
    requires var at := Some(Dir(name, children));
      forall j :: j in ChecksumList(top, at) ==> PlainPath(RelPath(j.root, j.file.name, pathToRemove))
    requires var path := Chosen(fs, manifestRoot, manifestSidecar, manifest);
      path.Some? && fs.files[path.value] == ManifestText(top, Some(Dir(name, children)), pathToRemove, md5)
    ensures var names := CountedNames(Some(Dir(name, children)));
      var r := ExistenceOf(fs, manifestRoot, manifestSidecar, manifest, |names|, names);
      r.Checked? && r.proceed == "y" && r.count == |names|
  {
    FileCountOfWrittenManifest(top, Some(Dir(name, children)), pathToRemove, md5);
    CountMatchesChecksumList(top, name, children);
  }
}
