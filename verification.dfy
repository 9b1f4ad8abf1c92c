/**
 * Checking the copy: the verdict of `verify_copy`, the two reports it
 * prints on a mismatch (`diff_report` and `check_extra_files`), and the
 * rewrite `main` applies to a source manifest made from a filesystem root
 * before comparing it (lines 652-657). File contents are strings here, so
 * `filecmp.cmp(..., shallow=False)` is string equality.
 */
module Verification {
  import opened Common
  import opened PyStr
  import opened Sorting
  import opened Reports
  import opened ManifestBuilder

  // ---------------------------------------------------------------------
  // diff_report

  /** Lines 241-255: every source line that is not verbatim a destination
    * line, newline included, in source order. */
  method DiffReport(sourceText: string, destText: string) returns (unexpected: seq<string>)
    ensures unexpected == Missing(ReadLines(sourceText), ReadLines(destText))
    ensures forall l :: l in unexpected <==> l in ReadLines(sourceText) && l !in ReadLines(destText)
  {
    var sourcelist := ReadLines(sourceText);
    var destlist := ReadLines(destText);
    unexpected := ReportMissing(sourcelist, destlist);
    forall l
      ensures l in unexpected <==> l in sourcelist && l !in destlist
    {
      MissingMembers(sourcelist, destlist, l);
    }
  }

  /** Two equal manifests give no `diff_report` lines. */
  lemma {:induction false} DiffOfEqualIsEmpty(text: string)
    ensures Missing(ReadLines(text), ReadLines(text)) == []
  {
    MissingEmpty(ReadLines(text), ReadLines(text));
  }

  // ---------------------------------------------------------------------
  // check_extra_files

  /** Each line from column 32 on: the separator, the path and the newline. */
  function Suffixes(lines: seq<string>): (r: seq<string>)
    ensures |r| == |lines|
    ensures forall k :: 0 <= k < |lines| ==> lines[k] == Take(lines[k], DigestWidth) + r[k]
  {
    seq(|lines|, k requires 0 <= k < |lines| => Drop(lines[k], DigestWidth))
  }

  /** Lines 266-271: the appending loops that build the suffix lists. */
  method SuffixList(lines: seq<string>) returns (files: seq<string>)
    ensures files == Suffixes(lines)
  {
    files := [];
    var i := 0;
    while i < |lines|
      invariant 0 <= i <= |lines|
      invariant files == Suffixes(lines[..i])
    {
      files := files + [Drop(lines[i], DigestWidth)];
      i := i + 1;
    }
    assert lines[..i] == lines;
  }

  /** Lines 258-277: every destination suffix that no source line has, in
    * destination order. */
  method CheckExtraFiles(sourceText: string, destText: string) returns (extra: seq<string>)
    ensures extra == Missing(Suffixes(ReadLines(destText)), Suffixes(ReadLines(sourceText)))
    ensures forall f :: f in extra <==>
      f in Suffixes(ReadLines(destText)) && f !in Suffixes(ReadLines(sourceText))
  {
    var sourcelist := ReadLines(sourceText);
    var destlist := ReadLines(destText);
    var destlistFiles := SuffixList(destlist);
    var sourcelistFiles := SuffixList(sourcelist);
    extra := ReportMissing(destlistFiles, sourcelistFiles);
    forall f
      ensures f in extra <==> f in destlistFiles && f !in sourcelistFiles
    {
      MissingMembers(destlistFiles, sourcelistFiles, f);
    }
  }

  /** A destination manifest that differs from the source one only in the
    * first 32 characters of its lines reports no extra files. */
  lemma DigestOnlyChangeHasNoExtras(sourceLines: seq<string>, destLines: seq<string>)
    requires |sourceLines| == |destLines|
    requires forall k :: 0 <= k < |destLines| ==>
      Drop(destLines[k], DigestWidth) == Drop(sourceLines[k], DigestWidth)
    ensures Missing(Suffixes(destLines), Suffixes(sourceLines)) == []
  {
    assert Suffixes(destLines) == Suffixes(sourceLines);
    MissingEmpty(Suffixes(destLines), Suffixes(sourceLines));
  }

  /** Column 32 is two characters before the path: for lines with the
    * two-space separator, the suffixes agree exactly when the paths do. */
  lemma ExtraFilesComparePaths(a: string, b: string)
    requires |a| >= PathColumn && |b| >= PathColumn
    requires a[DigestWidth..PathColumn] == "  " && b[DigestWidth..PathColumn] == "  "
    ensures Drop(a, DigestWidth) == "  " + PathKey(a)
    ensures Drop(a, DigestWidth) == Drop(b, DigestWidth) <==> PathKey(a) == PathKey(b)
  {
    assert a[DigestWidth..] == a[DigestWidth..PathColumn] + a[PathColumn..];
    assert b[DigestWidth..] == b[DigestWidth..PathColumn] + b[PathColumn..];
    if PathKey(a) != PathKey(b) {
      assert ("  " + PathKey(a))[2..] == PathKey(a);
      assert ("  " + PathKey(b))[2..] == PathKey(b);
    }
  }

  // ---------------------------------------------------------------------
  // verify_copy

  /** What `verify_copy` concludes: the manifests match; they differ and
    * both reports are produced; or they differ and, the destination
    * manifest having been kept, nothing is reported. */
  datatype Verdict =
    | Match
    | Mismatch(unexpected: seq<string>, extra: seq<string>)
    | MismatchUnreported

  /** The answer to the destination-manifest question is one that keeps
    * the existing manifest. */
  predicate Declined(overwrite: Option<string>) {
    overwrite == Some("N") || overwrite == Some("n")
  }

  /** Lines 538-562. `overwrite` is `overwrite_destination_manifest`:
    * `None` when no destination manifest existed, else the reply. */
  method VerifyCopy(manifestText: string, destText: string, overwrite: Option<string>)
    returns (verdict: Verdict)
    ensures verdict.Match? <==> manifestText == destText
    ensures verdict.MismatchUnreported? <==> manifestText != destText && Declined(overwrite)
    ensures verdict.Mismatch? ==>
      verdict.unexpected == Missing(ReadLines(manifestText), ReadLines(destText))
      && verdict.extra == Missing(Suffixes(ReadLines(destText)), Suffixes(ReadLines(manifestText)))
  {
    if manifestText == destText {
      verdict := Match;
    } else if !Declined(overwrite) {
      var unexpected := DiffReport(manifestText, destText);
      var extra := CheckExtraFiles(manifestText, destText);
      verdict := Mismatch(unexpected, extra);
    } else {
      verdict := MismatchUnreported;
    }
  }

  lemma ReadTwoLines(a: string, b: string)
    requires '\n' !in a && '\n' !in b
    ensures ReadLines(a + "\n" + b + "\n") == [a + "\n", b + "\n"]
  {
    assert [a, b][1..] == [b];
    assert [b][1..] == [];
    assert Unlines([b]) == b + "\n" + [];
    assert a + "\n" + b + "\n" == Unlines([a, b]);
    ReadLinesOfUnlines([a, b]);
  }

  /** The verdict is on bytes, the reports on lines: a manifest holding
    * the same two lines in the other order is a mismatch, yet neither
    * report has anything to say. */
  lemma SwappedLinesReportNothing(a: string, b: string)
    requires '\n' !in a && '\n' !in b && a != b
    ensures a + "\n" + b + "\n" != b + "\n" + a + "\n"
    ensures Missing(ReadLines(a + "\n" + b + "\n"), ReadLines(b + "\n" + a + "\n")) == []
    ensures Missing(Suffixes(ReadLines(b + "\n" + a + "\n")), Suffixes(ReadLines(a + "\n" + b + "\n"))) == []
  {
    var one, two := a + "\n" + b + "\n", b + "\n" + a + "\n";
    ReadTwoLines(a, b);
    ReadTwoLines(b, a);
    SwappedTextsDiffer(a, b);
    SwappedPairReportsNothing(a + "\n", b + "\n");
    SwappedSuffixes(ReadLines(one), ReadLines(two));
  }

  lemma SwappedTextsDiffer(a: string, b: string)
    requires '\n' !in a && '\n' !in b && a != b
    ensures a + "\n" + b + "\n" != b + "\n" + a + "\n"
  {
    var one, two := a + "\n" + b + "\n", b + "\n" + a + "\n";
    IndexOfAppend(a, '\n', b + "\n");
    IndexOfAppend(b, '\n', a + "\n");
    assert one == a + "\n" + (b + "\n") && two == b + "\n" + (a + "\n");
    if |a| == |b| {
      assert one[..|a|] == a && two[..|b|] == b;
    }
  }

  lemma SwappedSuffixes(one: seq<string>, two: seq<string>)
    requires |one| == 2 && two == [one[1], one[0]]
    ensures Missing(Suffixes(two), Suffixes(one)) == []
  {
    var s1, s2 := Suffixes(one), Suffixes(two);
    assert s2 == [s1[1], s1[0]];
    SwappedPairReportsNothing(s1[1], s1[0]);
  }

  lemma SwappedPairReportsNothing(x: string, y: string)
    ensures Missing([x, y], [y, x]) == []
  {
    MissingEmpty([x, y], [y, x]);
  }

  // ---------------------------------------------------------------------
  // The rewrite of a root-level source manifest (lines 652-657)

  /** Line 656: keep the first 33 characters, write a space, `dirname/`,
    * and the line from column 34 on; character 33 is dropped. */
  function RebaseLine(i: string, dirname: string): string {
    Take(i, PathColumn - 1) + " " + dirname + "/" + Drop(i, PathColumn)
  }

  /** For a line whose separator ends at column 34 the rewrite puts
    * `dirname/` in front of the path: the digest and separator are kept,
    * the path gains the prefix, and the line grows by that much. */
  lemma RebaseLineShape(i: string, dirname: string)
    requires |i| >= PathColumn && i[PathColumn - 1] == ' '
    ensures RebaseLine(i, dirname) == Reprefix(i, dirname + "/")
    ensures Take(RebaseLine(i, dirname), PathColumn) == Take(i, PathColumn)
    ensures PathKey(RebaseLine(i, dirname)) == dirname + "/" + PathKey(i)
    ensures |RebaseLine(i, dirname)| == |i| + |dirname| + 1
  {
    assert Take(i, PathColumn) == Take(i, PathColumn - 1) + " ";
    PathKeyReprefix(i, dirname + "/");
    var r := RebaseLine(i, dirname);
    assert r == Take(i, PathColumn) + (dirname + "/" + Drop(i, PathColumn));
  }

  /** The rewrite of every line, in order. */
  function RebasedLines(lines: seq<string>, dirname: string): (r: seq<string>)
    ensures |r| == |lines|
  {
    MapLines(lines, RebaseOf(dirname))
  }

  function RebaseOf(dirname: string): string -> string {
    line => RebaseLine(line, dirname)
  }

  lemma RebasedLinesAt(lines: seq<string>, dirname: string, k: nat)
    requires k < |lines|
    ensures RebasedLines(lines, dirname)[k] == RebaseLine(lines[k], dirname)
  {
    MapLinesAt(lines, RebaseOf(dirname), k);
  }

  /** Lines 652-657: read the manifest's lines and write each one rewritten. */
  method Rebase(text: string, dirname: string) returns (out: string)
    ensures out == Concat(RebasedLines(ReadLines(text), dirname))
  {
    var destManifestList := ReadLines(text);
    out := "";
    var i := 0;
    while i < |destManifestList|
      invariant 0 <= i <= |destManifestList|
      invariant out == Concat(RebasedLines(destManifestList[..i], dirname))
    {
      var line := RebaseLine(destManifestList[i], dirname);
      MapLinesSnoc(destManifestList, i, RebaseOf(dirname));
      ConcatAppend(RebasedLines(destManifestList[..i], dirname), [line]);
      out := out + line;
      i := i + 1;
    }
    assert destManifestList[..i] == destManifestList;
  }

  /** Every line has its two-space separator ending at column 34. */
  predicate SeparatorAtColumn(lines: seq<string>) {
    forall k :: 0 <= k < |lines| ==> |lines[k]| >= PathColumn && lines[k][PathColumn - 1] == ' '
  }

  lemma RebaseLineNewline(l: string, dirname: string)
    requires |l| >= PathColumn && l[PathColumn - 1] == ' '
    ensures RebaseLine(l + "\n", dirname) == Reprefix(l, dirname + "/") + "\n"
  {
    RebaseLineShape(l, dirname);
    RebaseLineAppend(l, "\n", dirname);
  }

  /** What follows the path is carried along unchanged. */
  lemma RebaseLineAppend(l: string, tail: string, dirname: string)
    requires |l| >= PathColumn
    ensures RebaseLine(l + tail, dirname) == RebaseLine(l, dirname) + tail
  {
    var lt := l + tail;
    assert Take(lt, PathColumn - 1) == Take(l, PathColumn - 1);
    assert Drop(lt, PathColumn) == Drop(l, PathColumn) + tail;
  }

  /** Rewriting a written manifest puts `dirname/` in front of every path
    * and changes nothing else. */
  lemma RebasedText(lines: seq<string>, dirname: string)
    requires SeparatorAtColumn(lines)
    requires forall k :: 0 <= k < |lines| ==> '\n' !in lines[k]
    ensures Concat(RebasedLines(ReadLines(Unlines(lines)), dirname))
      == Unlines(ReprefixAll(lines, dirname + "/"))
  {
    ReadLinesOfUnlines(lines);
    var moved := ReprefixAll(lines, dirname + "/");
    forall k | 0 <= k < |lines|
      ensures RebasedLines(WithNewlines(lines), dirname)[k] == WithNewlines(moved)[k]
    {
      RebasedLinesAt(WithNewlines(lines), dirname, k);
      RebaseLineNewline(lines[k], dirname);
    }
    assert RebasedLines(WithNewlines(lines), dirname) == WithNewlines(moved);
    ConcatWithNewlines(moved);
  }
}
