/**
 * The names `setup` derives from the command line (lines 364-399), the
 * search for an IFI SIP (`check_for_sip`, lines 325-338) and the name an
 * old desktop manifest is archived under (lines 661-664). Timestamps are
 * a parameter; the log file name is left out.
 */
module SetupPaths {
  import opened Common
  import opened PyStr
  import opened PosixPath
  import opened FileTree

  // ---------------------------------------------------------------------
  // check_for_sip

  const ManifestMarker := "manifest.md5"
  const ManifestSuffix := "_manifest.md5"

  /** The directory a listed name points at when it is a SIP's manifest:
    * `join(args, name.replace('_manifest.md5', ''))`, if that is a
    * directory. */
  predicate PointsAtSip(fs: Fs, dir: string, name: string) {
    Contains(name, ManifestMarker) && Join(dir, RemoveAll(name, ManifestSuffix)) in fs.dirs
  }

  /** The first listed name that points at a SIP. */
  function FirstSip(fs: Fs, dir: string, names: seq<string>): (r: Option<string>)
    ensures r.None? <==> forall k :: 0 <= k < |names| ==> !PointsAtSip(fs, dir, names[k])
    ensures r.Some? ==>
      (exists k :: 0 <= k < |names| && PointsAtSip(fs, dir, names[k])
        && r.value == Join(dir, RemoveAll(names[k], ManifestSuffix))
        && (forall j :: 0 <= j < k ==> !PointsAtSip(fs, dir, names[j])))
  {
    if names == [] then None
    else if PointsAtSip(fs, dir, names[0]) then
      Some(Join(dir, RemoveAll(names[0], ManifestSuffix)))
    else
      var r := FirstSip(fs, dir, names[1..]);
      assert forall k :: 1 <= k < |names| ==> names[k] == names[1..][k - 1];
      r
  }

  /** A SIP is a directory holding exactly two entries, a manifest and the
    * directory it names. */
  function SipOf(fs: Fs, dir: string, listing: seq<string>): Option<string> {
    if |listing| == 2 then FirstSip(fs, dir, listing) else None
  }

  /** Lines 330-338, with `os.listdir(args)` as `listing`: the first entry
    * naming a manifest whose directory exists, in a two-entry folder. */
  method CheckForSip(fs: Fs, dir: string, listing: seq<string>) returns (sip: Option<string>)
    ensures sip == SipOf(fs, dir, listing)
    ensures sip.Some? ==> sip.value in fs.dirs && |listing| == 2
  {
    var i := 0;
    while i < |listing|
      invariant 0 <= i <= |listing|
      invariant SipOf(fs, dir, listing) == if |listing| == 2 then FirstSip(fs, dir, listing[i..]) else None
    {
      var filenames := listing[i];
      assert listing[i..][1..] == listing[i + 1..];
      if Contains(filenames, ManifestMarker) {
        if |listing| == 2 {
          var dircheck := RemoveAll(filenames, ManifestSuffix);
          if Join(dir, dircheck) in fs.dirs {
            return Some(Join(dir, dircheck));
          }
        }
      }
      i := i + 1;
    }
    sip := None;
  }

  /** The source and destination `setup` settles on: inside a SIP, the
    * payload directory and a destination named after the SIP folder. */
  function SourceAndDestination(argsSource: string, argsDestination: string, sip: Option<string>): (string, string) {
    match sip
    case Some(payload) => (payload, Join(argsDestination, Basename(argsSource)))
    case None => (argsSource, argsDestination)
  }

  // ---------------------------------------------------------------------
  // setup

  /** The names `setup` returns. */
  datatype Paths = Paths(
    rootpos: bool,
    dirname: string,
    relativePath: string,
    destinationFinalPath: string,
    manifestDestination: string,
    manifest: string,
    manifestSidecar: string,
    manifestRoot: string)

  function Last(parts: seq<string>): string
    requires parts != []
  {
    parts[|parts| - 1]
  }

  /** Lines 376-399. `typedName` is the reply to the question asked when
    * the source's basename is empty. */
  function PathsOf(source: string, destination: string, desktopManifestDir: string, typedName: string): (p: Paths)
    ensures p.rootpos <==> Basename(source) == []
  {
    var base := Basename(Basename(source));
    var rootpos := base == [];
    var dirname := if rootpos then typedName else base;
    var relativePath := Last(Split(Normpath(source), '/'));
    Paths(
      rootpos,
      dirname,
      relativePath,
      Join(destination, dirname),
      destination + "/" + dirname + ManifestSuffix,
      Join(desktopManifestDir, dirname + ManifestSuffix),
      Join(Dirname(source), relativePath + ManifestSuffix),
      source + "/" + Basename(source) + ManifestSuffix)
  }

  lemma BasenameAfterSlash(h: string, n: string)
    requires '/' !in n
    ensures Basename(h + "/" + n) == n
  {
    TailStartAfterSlash(h + "/", n);
  }

  lemma SuffixedName(n: string)
    requires '/' !in n
    ensures ValidName(n + ManifestSuffix)
  {
  }

  /** A source with a name: the directory it is copied to, the desktop
    * manifest and the destination manifest all carry that name, and the
    * root manifest sits inside the source under the same file name. */
  lemma NamedSourcePaths(source: string, destination: string, desktopManifestDir: string, typedName: string)
    requires Basename(source) != []
    ensures var p := PathsOf(source, destination, desktopManifestDir, typedName);
      !p.rootpos && p.dirname == Basename(source)
      && Basename(p.destinationFinalPath) == p.dirname
      && Basename(p.manifest) == p.dirname + ManifestSuffix
      && Basename(p.manifestDestination) == p.dirname + ManifestSuffix
      && Basename(p.manifestRoot) == p.dirname + ManifestSuffix
      && Dirname(p.manifestRoot) == source
  {
    var b := Basename(source);
    TailStartNoSlash(b);
    assert Basename(b) == b;
    CopyNames(destination, desktopManifestDir, b);
    RootManifestInside(source);
  }

  lemma CopyNames(destination: string, desktopManifestDir: string, b: string)
    requires ValidName(b)
    ensures Basename(Join(destination, b)) == b
    ensures Basename(Join(desktopManifestDir, b + ManifestSuffix)) == b + ManifestSuffix
    ensures Basename(destination + "/" + b + ManifestSuffix) == b + ManifestSuffix
  {
    var name := b + ManifestSuffix;
    SuffixedName(b);
    BasenameOfJoin(destination, b);
    BasenameOfJoin(desktopManifestDir, name);
    DestinationManifestName(destination, b);
  }

  lemma DestinationManifestName(destination: string, b: string)
    requires ValidName(b)
    ensures Basename(destination + "/" + b + ManifestSuffix) == b + ManifestSuffix
  {
    var name := b + ManifestSuffix;
    SuffixedName(b);
    BasenameAfterSlash(destination, name);
    assert destination + "/" + b + ManifestSuffix == destination + "/" + name;
  }

  lemma RootManifestInside(source: string)
    requires Basename(source) != []
    ensures var root := source + "/" + Basename(source) + ManifestSuffix;
      Basename(root) == Basename(source) + ManifestSuffix && Dirname(root) == source
  {
    var b := Basename(source);
    var name := b + ManifestSuffix;
    SuffixedName(b);
    assert source + "/" + b + ManifestSuffix == source + "/" + name;
    BasenameAfterSlash(source, name);
    assert source[|source| - 1] == b[|b| - 1];
    assert Join(source, name) == source + "/" + name;
    DirnameOfJoin(source, name);
  }

  /** An absolute source of normal names: the sidecar is the manifest
    * beside the source directory, with the same file name as the desktop
    * manifest. */
  lemma SidecarBesideSource(names: seq<string>, destination: string, desktopManifestDir: string, typedName: string)
    requires names != [] && AllNormal(names)
    ensures var source := "/" + Slashed(names);
      var p := PathsOf(source, destination, desktopManifestDir, typedName);
      p.relativePath == p.dirname == names[|names| - 1]
      && p.manifestSidecar == Join(Dirname(source), p.dirname + ManifestSuffix)
  {
    var source := "/" + Slashed(names);
    var last := names[|names| - 1];
    NormpathOfAbsolute(names);
    LastOfAbsolute(names);
    AbsoluteBasename(names);
    BasenameOfName(last);
    PathsOfFields(source, destination, desktopManifestDir, typedName);
  }

  /** What `PathsOf` derives `relativePath`, `dirname` and the sidecar from. */
  lemma PathsOfFields(source: string, destination: string, desktopManifestDir: string, typedName: string)
    ensures var p := PathsOf(source, destination, desktopManifestDir, typedName);
      p.relativePath == Last(Split(Normpath(source), '/'))
      && (Basename(source) != [] ==> p.dirname == Basename(Basename(source)))
      && p.manifestSidecar == Join(Dirname(source), p.relativePath + ManifestSuffix)
  {
  }

  lemma BasenameOfName(n: string)
    requires '/' !in n
    ensures Basename(n) == n
  {
    TailStartNoSlash(n);
  }

  /** The last `/`-separated component of the normalised absolute path. */
  lemma LastOfAbsolute(names: seq<string>)
    requires names != [] && AllNormal(names)
    ensures Last(Split("/" + Slashed(names), '/')) == names[|names| - 1]
  {
    AbsoluteSplit(names);
    LastOfCons("", names);
  }

  lemma LastOfCons(h: string, parts: seq<string>)
    requires parts != []
    ensures Last([h] + parts) == parts[|parts| - 1]
  {
  }

  lemma {:induction false} AbsoluteBasename(names: seq<string>)
    requires names != [] && AllNormal(names)
    ensures Basename("/" + Slashed(names)) == names[|names| - 1]
  {
    var last := names[|names| - 1];
    if |names| == 1 {
      assert "/" + Slashed(names) == "/" + last;
      TailStartAfterSlash("/", last);
    } else {
      var init := names[..|names| - 1];
      assert "/" + Slashed(names) == ("/" + Slashed(init)) + "/" + last;
      BasenameAfterSlash("/" + Slashed(init), last);
    }
  }

  /** The same source written with a trailing slash has an empty basename:
    * it is taken for a filesystem root, the folder name is asked for, and
    * the sidecar looked for lies inside the source, not beside it. */
  lemma TrailingSlashSource(names: seq<string>, source: string, destination: string, desktopManifestDir: string, typedName: string)
    requires names != [] && AllNormal(names)
    requires source == "/" + Slashed(names) + "/"
    ensures var p := PathsOf(source, destination, desktopManifestDir, typedName);
      p.rootpos && p.dirname == typedName
      && p.relativePath == names[|names| - 1]
      && p.manifestSidecar == Join(source, names[|names| - 1] + ManifestSuffix)
  {
    var last := names[|names| - 1];
    TrailingSlashBasename(source);
    TrailingSlashRelativePath(names);
    TrailingSlashSidecar(names);
  }

  lemma TrailingSlashBasename(source: string)
    requires source != [] && source[|source| - 1] == '/'
    ensures Basename(source) == [] && Basename(Basename(source)) == []
  {
    assert TailStart(source) == |source|;
  }

  lemma TrailingSlashRelativePath(names: seq<string>)
    requires names != [] && AllNormal(names)
    ensures Last(Split(Normpath("/" + Slashed(names) + "/"), '/')) == names[|names| - 1]
  {
    NormpathOfAbsoluteSlash(names);
    LastOfAbsolute(names);
  }

  lemma TrailingSlashSidecar(names: seq<string>)
    requires names != [] && AllNormal(names)
    ensures var source := "/" + Slashed(names) + "/";
      var name := names[|names| - 1] + ManifestSuffix;
      Join(Dirname(source), name) == Join(source, name)
  {
    var last := names[|names| - 1];
    NormalAreValid(names);
    SlashedLastChar(names);
    DirnameOfTrailingSlash(names);
    assert Normal(last);
    JoinWithOrWithoutSlash("/" + Slashed(names), last + ManifestSuffix);
  }

  /** A relative name joined to a directory, written with or without its
    * trailing slash, gives the same path. */
  lemma JoinWithOrWithoutSlash(dir: string, name: string)
    requires dir != [] && dir[|dir| - 1] != '/'
    requires name != [] && name[0] != '/'
    ensures Join(dir, name) == Join(dir + "/", name)
  {
    assert Join(dir, name) == dir + "/" + name;
  }

  lemma DirnameOfTrailingSlash(names: seq<string>)
    requires names != [] && AllNormal(names)
    ensures Dirname("/" + Slashed(names) + "/") == "/" + Slashed(names)
  {
    var inner := "/" + Slashed(names);
    var source := inner + "/";
    assert TailStart(source) == |source|;
    assert source[..TailStart(source)] == source;
    SlashedFirst(names);
    assert source[1] == Slashed(names)[0];
    assert !AllSlashes(source);
    SlashedEndsWithLast(names);
    assert inner[|inner| - 1] != '/';
    assert source[..|source| - 1] == inner;
  }

  // ---------------------------------------------------------------------
  // Archiving the desktop manifest (lines 661-664)

  /** `manifest[:-4] + stamp + '.md5'`. */
  function ArchiveName(manifest: string, stamp: string): string {
    DropLast(manifest, 4) + stamp + ".md5"
  }

  /** Where a used manifest ends up: moved into `old_manifests` when it
    * lies in the desktop manifest folder, otherwise left where it is. */
  function ArchivedAt(manifest: string, desktopManifestDir: string, stamp: string): Option<string> {
    if Dirname(manifest) == desktopManifestDir then
      Some(Join(Join(desktopManifestDir, "old_manifests"), Basename(ArchiveName(manifest, stamp))))
    else None
  }

  /** The timestamp goes between the stem and the `.md5` extension. */
  lemma ArchiveNameKeepsStem(stem: string, stamp: string)
    ensures ArchiveName(stem + ".md5", stamp) == stem + stamp + ".md5"
  {
    assert DropLast(stem + ".md5", 4) == stem;
  }

  /** The desktop manifest of a named source is archived as
    * `old_manifests/<dirname>_manifest<stamp>.md5`. */
  lemma DesktopManifestArchived(desktopManifestDir: string, dirname: string, stamp: string)
    requires desktopManifestDir != [] && desktopManifestDir[|desktopManifestDir| - 1] != '/'
    requires ValidName(dirname) && '/' !in stamp
    ensures ArchivedAt(Join(desktopManifestDir, dirname + ManifestSuffix), desktopManifestDir, stamp)
         == Some(Join(Join(desktopManifestDir, "old_manifests"), dirname + "_manifest" + stamp + ".md5"))
  {
    var manifest := Join(desktopManifestDir, dirname + ManifestSuffix);
    DesktopManifestPath(desktopManifestDir, dirname);
    ArchiveNameKeepsStem(desktopManifestDir + "/" + (dirname + "_manifest"), stamp);
    ArchivedBasename(desktopManifestDir, dirname, stamp);
    ArchivedInFolder(desktopManifestDir, manifest, stamp, dirname + "_manifest" + stamp + ".md5");
  }

  lemma ArchivedBasename(dir: string, dirname: string, stamp: string)
    requires ValidName(dirname) && '/' !in stamp
    ensures Basename(dir + "/" + (dirname + "_manifest") + stamp + ".md5") == dirname + "_manifest" + stamp + ".md5"
  {
    var archived := dirname + "_manifest" + stamp + ".md5";
    assert dir + "/" + (dirname + "_manifest") + stamp + ".md5" == dir + "/" + archived;
    BasenameAfterSlash(dir, archived);
  }

  lemma ArchivedInFolder(dir: string, manifest: string, stamp: string, archived: string)
    requires Dirname(manifest) == dir && Basename(ArchiveName(manifest, stamp)) == archived
    ensures ArchivedAt(manifest, dir, stamp) == Some(Join(Join(dir, "old_manifests"), archived))
  {
  }

  /** The desktop manifest lies directly in the desktop folder. */
  lemma DesktopManifestPath(desktopManifestDir: string, dirname: string)
    requires desktopManifestDir != [] && desktopManifestDir[|desktopManifestDir| - 1] != '/'
    requires ValidName(dirname)
    ensures var manifest := Join(desktopManifestDir, dirname + ManifestSuffix);
      Dirname(manifest) == desktopManifestDir
      && manifest == desktopManifestDir + "/" + (dirname + "_manifest") + ".md5"
  {
    var name := dirname + ManifestSuffix;
    SuffixedName(dirname);
    DirnameOfJoin(desktopManifestDir, name);
    assert name == (dirname + "_manifest") + ".md5";
  }

}
