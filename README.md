# copyit.py manifest and verification core, in Dafny

`copyit.py` copies a directory and checks the copy with MD5 checksum
manifests. It writes one manifest of the source and one of the destination.
Each manifest has one line per file: `<32 hex digits>  <relative path>`,
sorted by path. The copy counts as verified when the two manifest files are
byte-for-byte equal. This project models the parts of the script that decide
what goes into a manifest and what the comparison reports:

- `make_manifest` and `hashlib_md5`: the walk with its pruning and filters,
  the relative path, the line layout, `splitlines`, the sort by `x[34:]`, and
  the write.
- `count_stuff`, `manifest_file_count` and `manifest_existence`: the
  staleness check on an existing source manifest.
- `check_overwrite` and `check_overwrite_dir`: the Y/N prompt loops. The
  replies are a sequence given in advance.
- `diff_report`, `check_extra_files` and the `verify_copy` decision.
- The rewrite of a root-level source manifest in `main` (lines 652-657).
- The path names `setup` derives, `check_for_sip`, and the name a desktop
  manifest is archived under.

The filesystem is modelled as a value. A tree `Node` (files and directories
with names and contents) stands for what `os.walk` sees. A map and a set
(`Fs`) stand for `os.path.isfile` / `os.path.isdir`. MD5 is a parameter
`md5: string -> Digest`, where a `Digest` is any 32-character lowercase hex
string. Python 2 `str` is a Dafny `string`, one character per byte. Paths
follow POSIX `posixpath`.

Modules, in dependency order:

- `Common`: `Option`.
- `PyStr`: the Python string operations the script uses:
  - slices, `replace`, `splitlines`, `readlines`, `split` and `rsplit()[0]`;
  - byte-string ordering.
- `PosixPath`: `join`, `basename`, `dirname`, `normpath`, and the directory
  paths `os.walk` reports.
- `FileTree`: the tree, the pruned walk, and the full file listing.
- `Sorting`: `sorted(key=lambda x: x[34:])` as a stable insertion sort, and
  re-prefixing paths.
- `ManifestBuilder`: `hashlib_md5` and `make_manifest`.
- `Reports`: the `for i in xs: if i not in ys` reporting loop.
- `Prompt`: the overwrite questions.
- `ManifestStore`: `count_stuff`, `manifest_file_count` and
  `manifest_existence`.
- `Verification`: `diff_report`, `check_extra_files`, `verify_copy` and the
  rebase rewrite.
- `SetupPaths`: the names from `setup`, `check_for_sip`, and archiving.
- `RoundTrip`: when the source and destination manifests of a copy agree.

Quirks of the code that the model reproduces, each stated as a lemma:

- **Line 109 never prunes anything** (`ManifestBuilder.ManifestPruningIsDotOnly`).
  It compares one character with a 25-character name.
- **Files in subdirectories of `System Volume Information` are hashed**
  (`ManifestBuilder.HashesFileChecksParentOnly`). Only the file's own
  directory name is checked.
- **A newline in a file name inflates `files_in_manifest`**
  (`ManifestBuilder.NewlineInNameMiscounts`). `splitlines` cuts that file's
  line in two.
- **`manifest_file_count` reads back digests, not file names**
  (`ManifestStore.FileCountOfWrittenManifest`). On a manifest that
  `make_manifest` itself wrote, the "file names" are the digests.
- **The slice widths differ.**
  - `check_extra_files` compares from column 32 (`Verification.ExtraFilesComparePaths`).
  - The sort key starts at column 34.
  - The rebase keeps 33 characters and drops the 34th (`Verification.RebaseLineShape`).
- **Reordered lines fail verification with empty reports**
  (`Verification.SwappedLinesReportNothing`). A manifest holding the same
  lines in another order fails the byte comparison, yet both reports are
  empty.
- **A source directly below `/` loses its slashes**
  (`RoundTrip.SourceBelowFilesystemRootLosesSlashes`). `replace` deletes
  every `/` of the walked path, so that source's manifest cannot match its
  copy's.
- **A trailing slash makes a source look like a filesystem root**
  (`SetupPaths.TrailingSlashSource`).
- **`manifest_existence` checks root, then sidecar, then desktop**
  (`ManifestStore.RootManifestWins`). The docstring at lines 453-454 lists
  them in a different order. The model follows the code.

## Model

| member | source | states |
|---|---|---|
| ManifestBuilder.HashFile | copyit.py:19-40 | Reading the file in chunks feeds the digest the whole content. The result is the digest, two spaces, the path and a newline, and its first 32 characters are the digest. |
| ManifestBuilder.ManifestPruningIsDotOnly | copyit.py:105-110 | A directory is entered exactly when its name is non-empty and does not start with `.`. The `System Volume Information` comparison never rejects anything. |
| ManifestBuilder.HashesFileChecksParentOnly | copyit.py:111-116 | A file is hashed exactly when its own directory is not named `System Volume Information` and its name does not start with `.`. Subdirectories of that folder are still hashed. |
| ManifestBuilder.AppendJobs | copyit.py:135-136 | The loop appends one `[root, name]` pair per kept name, in order. |
| ManifestBuilder.CollectChecksumList | copyit.py:120-138 | The walk loop builds `ChecksumList`. For a directory that is each step's kept files in walk order; for a single file it is that file split into dirname and basename; for nothing it is empty. |
| ManifestBuilder.ChecksumListIsFilteredListing | copyit.py:104-138 | For a directory, the hashed files are the files of the full listing that lie below no hidden directory and pass the file filter, in walk order. |
| ManifestBuilder.StripLeadingSeparator | copyit.py:145-150 | One leading `/` is dropped, then one leading backslash. The removed prefix is empty, `/`, a backslash, or `/` and a backslash, each exactly in the case that leads to it. A string that runs out is tolerated. |
| ManifestBuilder.Generate | copyit.py:139-154 | The generator string is every job's line followed by `\n`, in job order. |
| ManifestBuilder.EntryLineLayout | copyit.py:144-153 | A line is at least 34 characters. Its first 32 are the file's digest, columns 32-33 are two spaces, and the sort key `x[34:]` is exactly the relative path. |
| ManifestBuilder.EntryLineBreaks | copyit.py:151-153 | A line holds a line break exactly when its relative path does. The digest and the separator never do. |
| ManifestBuilder.WriteLines | copyit.py:159-161 | The bytes written are every line followed by `\n`. |
| ManifestBuilder.MakeManifest | copyit.py:93-162 | The text written is the `splitlines` lines sorted by path and newline-terminated. The returned count is the number of `splitlines` lines. |
| ManifestBuilder.ManifestListIsEntries | copyit.py:155-156 | When no relative path holds a line break, `splitlines` gives back exactly the generated lines, so `files_in_manifest` is the number of files hashed. |
| ManifestBuilder.WrittenManifest | copyit.py:155-161 | The written manifest reads back as the sorted lines, each with its newline. It is sorted by path and is a permutation of the `splitlines` lines. |
| ManifestBuilder.NewlineInNameMiscounts | copyit.py:151-156 | A directory whose one file is named `a\nb` gives one hashed file but two `splitlines` lines. |
| ManifestBuilder.GeneratedAtTop | copyit.py:144-153 | A file directly inside the walked top, made relative to that top, is written as its digest, two spaces and its bare name. |
| Sorting.SortByPathCorrect | copyit.py:158 | The sorted manifest is ordered by `x[34:]` and is a permutation of its input. |
| Sorting.SortByPathSorted | copyit.py:158 | The sorted manifest is ordered by `x[34:]`. |
| Sorting.SortByPathPermutes | copyit.py:158 | The sorted manifest holds each input line exactly as often as the input does. |
| Sorting.SortByPathStable | copyit.py:158 | Lines with the same path keep their generation order, as Python's stable `sorted` keeps them. |
| Sorting.StableSortIsUnique | copyit.py:158 | Two lists that are sorted by path and order each path's lines the same way are equal. |
| Sorting.StableSortAgrees | copyit.py:158 | Any stable sort of the lines by `x[34:]` gives the insertion sort's result. |
| Sorting.SortByPathReprefix | copyit.py:158 | Prefixing every path with the same string commutes with the sort. |
| Sorting.ReprefixKeepsOrder | copyit.py:158 | Two prefixed paths compare as the unprefixed paths do. |
| PyStr.RemoveAll | copyit.py:144 | `replace(pat, '')` never lengthens the string, and an empty pattern changes nothing. |
| PyStr.RemoveAllKeepsPrefix | copyit.py:144 | A prefix in which no occurrence of the pattern starts survives unchanged, and the deletion goes on in what follows it. |
| PyStr.RemoveAllNoMatchHead | copyit.py:144 | Where no occurrence starts at the front, the first character survives and the scan moves one character on. |
| PyStr.RemoveAllLeading | copyit.py:144 | A leading occurrence is deleted and the scan resumes after it. |
| PyStr.RemoveAllAbsent | copyit.py:144 | A string not holding the pattern is unchanged. |
| PyStr.ToSlashes | copyit.py:151-153 | Every backslash becomes `/`, every other character is unchanged, and the length is kept. |
| PyStr.SplitLinesOfUnlines | copyit.py:155 | `splitlines` undoes writing newline-terminated lines that hold no line break. |
| PyStr.ReadLinesOfUnlines | copyit.py:247 | `readlines` undoes that writing too, and each line keeps its `\n`. |
| PyStr.ReadLinesConcat | copyit.py:247 | The lines `readlines` returns concatenate back to the text. |
| PyStr.FirstWord | copyit.py:306 | `rsplit()[0]` is a non-empty run of non-whitespace. It fails exactly when the string is all whitespace. Otherwise it is the whole run of non-whitespace that follows the leading whitespace. |
| PyStr.Split | copyit.py:302 | `split(c)` gives at least one part, no part holds `c`, and joining the parts with `c` gives the string back. |
| PyStr.SplitOfEmpty | copyit.py:302 | `''.split(c)` is `['']`. |
| PyStr.LessEqTotal | copyit.py:158 | Byte-string comparison is total. |
| PyStr.LessEqTrans | copyit.py:158 | Byte-string comparison is transitive. |
| PyStr.LessEqCommonPrefix | copyit.py:158 | A shared prefix does not change how two strings compare. |
| PosixPath.Join | copyit.py:151-153 | `os.path.join`: an absolute second part replaces the first. Otherwise it is appended, with `/` unless the first part is empty or ends in one. |
| PosixPath.Basename | copyit.py:112 | `os.path.basename` is the slash-free tail of the path. Unless it is the whole path, a `/` comes right before it. |
| PosixPath.BasenameOfJoin | copyit.py:112 | Joining a name onto any path gives that name as the basename. |
| PosixPath.RootBelow | copyit.py:122 | The directory path the walk reports below `top` is `top`, a separator if needed, and the directory names joined with `/`. |
| PosixPath.RootOfJoin | copyit.py:122 | Walking from `join(d, n)` is walking from `d` with `n` in front of the names. |
| PosixPath.DirnameOfJoin | copyit.py:582 | `dirname` undoes `join` with a name, for a parent without a trailing slash. |
| PosixPath.NormpathOfAbsolute | copyit.py:376 | `normpath` leaves `/a/b/c` of normal names unchanged. |
| PosixPath.NormpathOfAbsoluteSlash | copyit.py:376 | `normpath` drops the trailing slash of `/a/b/c/`. |
| FileTree.WalkIsPrunedListing | copyit.py:104-110 | The pruned walk lists exactly the files no rejected directory hides, in the full walk's order. |
| FileTree.ReachableOnlyBelowPruned | copyit.py:105-107 | Below a rejected directory nothing is listed. |
| ManifestStore.CountNames | copyit.py:421-423 | One count and one name are added per visible file. |
| ManifestStore.CountStuff | copyit.py:412-424 | The names are the visible files of the walk that skips hidden directories. The count is their number. |
| ManifestStore.CountedNamesIsFilteredListing | copyit.py:418-423 | `count_stuff` lists the visible files below no hidden directory, in listing order. |
| ManifestStore.CountMatchesChecksumList | copyit.py:412-424 | `count_stuff` and `make_manifest` count the same number of files unless a folder named `System Volume Information` directly holds files. |
| ManifestStore.SelectOneCount | copyit.py:128-133 | A file that is not directly inside `System Volume Information` is hashed exactly when it is counted. |
| ManifestStore.AppendPieceNames | copyit.py:304-306 | Each comma-separated piece's name is appended, or `IndexError` when a piece has none. |
| ManifestStore.ManifestFileCount | copyit.py:294-309 | The result is the number of lines read and the name of every piece of every line, or `IndexError` as soon as one piece has no name. |
| ManifestStore.FieldNamesStep | copyit.py:302-307 | One more line's names follow the names of the lines before it, or the count fails when one of its pieces has no name. |
| ManifestStore.PieceNameOfEntry | copyit.py:305-306 | For a written line of a slash-only path, the name read back is the line's digest. |
| ManifestStore.ManifestInfoOfEntries | copyit.py:302-308 | A manifest of well-formed lines reads back as one entry per line, with the digests as names. |
| ManifestStore.FileCountOfWrittenManifest | copyit.py:302-308 | On a manifest `make_manifest` wrote, the count is the number of files hashed, and the names are the digests. |
| ManifestStore.Chosen | copyit.py:459-476 | The manifest consulted is one of the three and exists. It is the root manifest when that exists, else the sidecar when that exists, else the desktop copy. Nothing is consulted exactly when none of the three exists. |
| ManifestStore.ExistenceOf | copyit.py:456-490 | With no manifest the result is `('n', 0, [])`. Otherwise it is `IndexError` exactly when the consulted manifest cannot be read. For a readable one it is an abort exactly when its line count differs from the source's; the abort carries both missing-name lists, and any other result is `('y', count, names)` of that manifest. |
| ManifestStore.ManifestExistence | copyit.py:448-490 | The method's outcome is `ExistenceOf`: the consulted manifest's count and names, an abort with both missing-name lists, or `IndexError`. |
| ManifestStore.StaleReportsBothWays | copyit.py:477-489 | An abort reports exactly the source files missing from the manifest and exactly the manifest names missing from the source. |
| ManifestStore.RootManifestWins | copyit.py:459-464 | Once the root manifest exists, the other two do not affect the outcome. |
| ManifestStore.FreshManifestIsNotStale | copyit.py:448-490 | A manifest `make_manifest` wrote for the same directory passes the check, for plain paths and no files directly inside `System Volume Information`. |
| Prompt.FirstYesNo | copyit.py:287-290 | The index of the first acceptable reply, with every earlier reply rejected. |
| Prompt.ReplyOf | copyit.py:286-291 | The accepted reply is the first of `Y y N n`, with every earlier one rejected. Input runs out exactly when no reply is acceptable. |
| Prompt.PromptYesNo | copyit.py:286-290 | The loop's result is `ReplyOf` of the replies. |
| Prompt.CheckOverwrite | copyit.py:280-291 | The result is `None` when no file is at the path; otherwise it is the prompt's reply. |
| Prompt.CheckOverwriteDir | copyit.py:312-323 | The result is `None` when no directory is at the path; otherwise it is the prompt's reply. |
| Prompt.PromptStopsAtFirstAcceptable | copyit.py:287-290 | The loop stops at the first acceptable reply, and later replies are never read. |
| Reports.ReportMissing | copyit.py:250-255 | The loop reports the elements of `xs` not in `ys`, in order, repeats included. |
| Reports.MissingMembers | copyit.py:250-251 | An element is reported exactly when it is in `xs` and not in `ys`. |
| Reports.MissingEmpty | copyit.py:250-251 | Nothing is reported exactly when every element of `xs` is in `ys`. |
| Reports.MissingDisjoint | copyit.py:250-251 | When nothing of `xs` is in `ys`, every element is reported, in order. |
| Verification.DiffReport | copyit.py:241-255 | The report is exactly the source lines, newline included, that are not destination lines, in source order. |
| Verification.DiffOfEqualIsEmpty | copyit.py:250-255 | Equal manifests give no report. |
| Verification.Suffixes | copyit.py:269-271 | Each line is its first 32 characters followed by its suffix. |
| Verification.SuffixList | copyit.py:266-271 | The appending loops build the suffix lists. |
| Verification.CheckExtraFiles | copyit.py:258-277 | The report is exactly the destination suffixes that no source line has, in destination order. |
| Verification.DigestOnlyChangeHasNoExtras | copyit.py:268-277 | A destination that differs from the source only in the first 32 characters of its lines reports no extras. |
| Verification.ExtraFilesComparePaths | copyit.py:269-271 | For well-formed lines the column-32 suffix is two spaces and the path, so suffixes agree exactly when paths do. |
| Verification.VerifyCopy | copyit.py:538-562 | The verdict is a match exactly when the texts are equal. It is an unreported mismatch exactly when they differ and the destination manifest was kept. Otherwise both reports are produced. |
| Verification.SwappedLinesReportNothing | copyit.py:538-557 | Two lines in swapped order are a mismatch, yet neither report lists anything. |
| Verification.RebaseLineShape | copyit.py:656 | For a line whose 34th character is a space, the rewrite keeps the first 34 characters, puts `dirname/` in front of the path, and adds `len(dirname) + 1` characters. |
| Verification.Rebase | copyit.py:652-657 | The rewritten text is every line read, rewritten, in order. |
| Verification.RebasedText | copyit.py:652-657 | Rewriting a written manifest puts `dirname/` in front of every path and changes nothing else. |
| SetupPaths.FirstSip | copyit.py:331-338 | The first listed name that names a manifest whose directory exists, with no earlier such name. The result is `None` exactly when no name qualifies. |
| SetupPaths.CheckForSip | copyit.py:325-338 | The loop returns `SipOf` of the listing. A result is an existing directory, found in a two-entry folder. |
| SetupPaths.PathsOf | copyit.py:376-399 | `rootpos` is set exactly when the source's basename is empty. |
| SetupPaths.NamedSourcePaths | copyit.py:376-399 | For a named source, the copy, the desktop manifest and the destination manifest all carry its name. The root manifest sits inside the source. |
| SetupPaths.SidecarBesideSource | copyit.py:376-398 | For `/a/.../n`, `relative_path` and `dirname` are `n`, and the sidecar is `n_manifest.md5` beside the source. |
| SetupPaths.TrailingSlashSource | copyit.py:376-398 | For `/a/.../n/`, `rootpos` is set and the typed name is used. `relative_path` is `n`, and the sidecar is looked for inside the source. |
| SetupPaths.ArchiveNameKeepsStem | copyit.py:661 | The timestamp goes between the stem and `.md5`. |
| SetupPaths.DesktopManifestArchived | copyit.py:661-664 | A desktop manifest is moved to `old_manifests/<dirname>_manifest<stamp>.md5`. |
| RoundTrip.RelPathBelow | copyit.py:144-153 | A file below `parent` gets the relative path `dirs/name` when deleting `parent` touches nothing after its first occurrence. |
| RoundTrip.SelectedLinesReprefixed | copyit.py:139-154 | Files that correspond across two walks give lines that correspond, in the same order. |
| RoundTrip.FaithfulCopyManifestsMatch | copyit.py:493-537 | For a copy of `join(parent, b)` into `dest`, the source manifest (relative to `dirname(source)`) and the destination manifest (relative to `dest`) are the same bytes. |
| RoundTrip.RootCopyManifestsMatchAfterRewrite | copyit.py:647-657 | For a root-level source copied under the typed name `n`, the source manifest after the rewrite is the destination manifest, byte for byte. |
| RoundTrip.RewriteCommutesWithSort | copyit.py:652-657 | Rewriting the sorted manifest gives the sort of the rewritten lines. |
| RoundTrip.SourceBelowFilesystemRootLosesSlashes | copyit.py:144 | For the source `/d`, `dirname` is `/`, and the file `s/f` is written as `ds/f` while its copy is written `d/s/f`. |

## Left out

- `copy_dir` (lines 165-239): it calls external copy programs through `subprocess`. A copy is modelled only by its result, the destination tree.
- `remove_bad_files`, `test_write_capabilities`, `os.makedirs`, `os.rename`, `shutil.move` and the temporary file are filesystem effects. They are not modelled.
- The working directory is not modelled. `make_manifest` calls `os.chdir(manifest_dir)` at line 121 and then walks `manifest_dir`, so the model is faithful only for an absolute `manifest_dir`.
- MakeManifest: it walks `manifest_dir` as given. For a relative `manifest_dir`, line 121 first moves into it, so the source walks `manifest_dir/manifest_dir` instead, which usually hashes nothing.
- CountMatchesChecksumList: it compares the two walks of one absolute directory. For a relative `manifest_dir`, the `os.chdir` at line 121 makes the second walk start from `manifest_dir/manifest_dir`, and the counts can differ.
- Logging (`generate_log`), the printed messages, the progress percentages of `hashlib_md5`, and the counters `source_counter` and `counter2` affect no result. They are left out.
- MD5 itself is a parameter. The absolute path `hashlib_md5` appends is replaced by the joined path, since only `[:32]` of the result is used.
- `os.walk` is modelled on a tree value. Symlinks, `onerror`, and directories that change during the walk are left out.
- Only POSIX paths are modelled. Windows `ntpath` rules and `os.path.abspath` are not.
- `filecmp.cmp(..., shallow=False)` is modelled as equality of the two texts.
- `sys.exit` is modelled as an outcome: `Stale` in `manifest_existence`, and running out of replies in the prompts.
- The `UnboundLocalError` that `make_destination_manifest` raises for an `N` reply is not modelled.
- `control_flow`, `overwrite_check` and `main` only wire the modelled parts together. `RoundTrip` states what their two `make_manifest` calls and the rewrite produce; the sequencing itself is not modelled.
- `setup`'s `argparse` and the question it asks for an empty basename are not modelled. The reply is a parameter, `typedName`.
- The log name and the timestamp come from `time.strftime`. The timestamp is a parameter.
- The `destination_count` walk (lines 642-646) only feeds a printed message, so it is left out.
- `makepbcore.py` and `viruscheck.py` are not part of this model.
- SetupPaths.PathsOf: its contract only states when `rootpos` is set. The individual names are stated by the lemmas after it.
- RoundTrip.FaithfulCopyManifestsMatch: it assumes absolute source and destination paths, names without backslashes, and no directory path that holds the removed prefix again. A relative path is walked from the wrong directory after the `os.chdir` at line 121. When those fail, `replace` and the backslash rewrite change paths, and the lemma says nothing.
- RoundTrip.RootCopyManifestsMatchAfterRewrite: the same assumptions apply, including absolute paths, and names must also hold no line break.
