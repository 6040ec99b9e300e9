/** The post-fetch extractor: src/transform.rs, repeated line for line as
    `config::Transform` and `mod transform` in src/config/destinations.rs.
    An archive is the list of its entries in archive order; the zip reader
    and glob matching are the crates' business and arrive as functions. */
module Transform {
  import opened Common

  /** A compiled `glob::Pattern` is kept as its source text. */
  datatype Pattern = Pattern(glob: string, exclude: bool)

  datatype Transform = Direct | Unzip(unzip: seq<Pattern>)

  /** An entry of an archive that opened. `contents` is `None` when the
      entry cannot be read: `by_name` fails on it, or, for a regular file,
      `read_to_end` does. */
  datatype ArchiveEntry = ArchiveEntry(name: string, isFile: bool, contents: Option<Bytes>)

  /** `glob.matches(path)`, arguments in that order. */
  type GlobMatch = (string, string) -> bool

  /** `ZipArchive::new` and reading its entries: `None` when the bytes are
      not a readable archive. */
  type ZipReader = Bytes -> Option<seq<ArchiveEntry>>

  /** `include.all(|pattern| pattern.glob.matches(path))` over the patterns
      that are not excludes. */
  function AllIncludesMatch(path: string, patterns: seq<Pattern>, matches: GlobMatch): (r: bool)
    ensures r <==> forall i | 0 <= i < |patterns| && !patterns[i].exclude :: matches(patterns[i].glob, path)
    decreases |patterns|
  {
    if patterns == [] then true
    else
      var rest := AllIncludesMatch(path, patterns[1..], matches);
      assert forall i | 1 <= i < |patterns| :: patterns[i] == patterns[1..][i - 1];
      if patterns[0].exclude then rest else matches(patterns[0].glob, path) && rest
  }

  /** `exclude.any(|pattern| pattern.glob.matches(path))` over the excludes. */
  function AnyExcludeMatches(path: string, patterns: seq<Pattern>, matches: GlobMatch): (r: bool)
    ensures r <==> exists i | 0 <= i < |patterns| && patterns[i].exclude :: matches(patterns[i].glob, path)
    decreases |patterns|
  {
    if patterns == [] then false
    else
      var rest := AnyExcludeMatches(path, patterns[1..], matches);
      assert forall i | 1 <= i < |patterns| :: patterns[i] == patterns[1..][i - 1];
      if patterns[0].exclude then matches(patterns[0].glob, path) || rest else rest
  }

  /** `matches_all`: every include pattern matches and no exclude pattern does. */
  predicate MatchesAll(path: string, patterns: seq<Pattern>, matches: GlobMatch)
  {
    AllIncludesMatch(path, patterns, matches) && !AnyExcludeMatches(path, patterns, matches)
  }

  /** The include/exclude rule, both directions. */
  lemma MatchesAllMeaning(path: string, patterns: seq<Pattern>, matches: GlobMatch)
    ensures MatchesAll(path, patterns, matches) <==>
      (forall i | 0 <= i < |patterns| && !patterns[i].exclude :: matches(patterns[i].glob, path)) &&
      (forall i | 0 <= i < |patterns| && patterns[i].exclude :: !matches(patterns[i].glob, path))
  {
  }

  /** With no include pattern the include test holds vacuously: only the
      excludes can reject a path. An empty list accepts every path. */
  lemma NoIncludesOnlyExcludesDecide(path: string, patterns: seq<Pattern>, matches: GlobMatch)
    requires forall i | 0 <= i < |patterns| :: patterns[i].exclude
    ensures MatchesAll(path, patterns, matches) <==> !AnyExcludeMatches(path, patterns, matches)
    ensures patterns == [] ==> MatchesAll(path, patterns, matches)
  {
  }

  /** An include of every jar under lib with an exclude of its test jars: a test jar is
      rejected, another jar accepted, for any glob matcher that agrees on
      these four questions. */
  lemma IncludeExcludeExample(matches: GlobMatch)
    requires matches("lib/*.jar", "lib/test-foo.jar") && matches("lib/test-*.jar", "lib/test-foo.jar")
    requires matches("lib/*.jar", "lib/core.jar") && !matches("lib/test-*.jar", "lib/core.jar")
    ensures var patterns := [Pattern("lib/*.jar", false), Pattern("lib/test-*.jar", true)];
      !MatchesAll("lib/test-foo.jar", patterns, matches) && MatchesAll("lib/core.jar", patterns, matches)
  {
    var patterns := [Pattern("lib/*.jar", false), Pattern("lib/test-*.jar", true)];
    assert patterns[1].exclude && matches(patterns[1].glob, "lib/test-foo.jar");
  }

  /** An entry at which the scan of the matching names stops: a matching
      entry that is a regular file, or that cannot be read. Every other
      matching entry is a readable directory and is passed over. */
  predicate Decides(e: ArchiveEntry, patterns: seq<Pattern>, matches: GlobMatch)
  {
    MatchesAll(e.name, patterns, matches) && (e.isFile || e.contents.None?)
  }

  /** Index of the first deciding entry, in archive order. */
  function FirstDeciding(archive: seq<ArchiveEntry>, patterns: seq<Pattern>, matches: GlobMatch): (r: Option<nat>)
    ensures r.Some? ==> r.value < |archive| && Decides(archive[r.value], patterns, matches)
    ensures r.Some? ==> forall j | 0 <= j < r.value :: !Decides(archive[j], patterns, matches)
    ensures r.None? <==> forall j | 0 <= j < |archive| :: !Decides(archive[j], patterns, matches)
    decreases |archive|
  {
    if archive == [] then None
    else if Decides(archive[0], patterns, matches) then Some(0)
    else
      var rest := FirstDeciding(archive[1..], patterns, matches);
      assert forall j | 1 <= j < |archive| :: archive[j] == archive[1..][j - 1];
      match rest
      case None => None
      case Some(i) => Some(i + 1)
  }

  function FileOf(e: ArchiveEntry): File
    requires e.contents.Some?
  {
    File(e.name, e.contents.value)
  }

  /** What `unzip` returns for an archive that opened: the first deciding
      entry as a file carrying its own path as name and its own content, or
      an I/O error when that entry cannot be read. */
  function Unzipped(archive: seq<ArchiveEntry>, patterns: seq<Pattern>, matches: GlobMatch): Result<Option<File>>
  {
    match FirstDeciding(archive, patterns, matches)
    case None => Ok(None)
    case Some(i) => if archive[i].contents.None? then Err(Io) else Ok(Some(FileOf(archive[i])))
  }

  /** `Transform::apply`, as a value. A `ZipError` reaches the caller as an
      I/O error through the closure's `?`. */
  function Applied(t: Transform, file: File, zip: ZipReader, matches: GlobMatch): Result<Option<File>>
  {
    match t
    case Direct => Ok(Some(file))
    case Unzip(patterns) =>
      match zip(file.bytes)
      case None => Err(Io)
      case Some(archive) => Unzipped(archive, patterns, matches)
  }

  /** `Direct` hands the file through untouched and never fails. */
  lemma DirectIsIdentity(file: File, zip: ZipReader, matches: GlobMatch)
    ensures Applied(Direct, file, zip, matches) == Ok(Some(file))
  {
  }

  /** What an `Unzip` transform promises. A file comes from a readable,
      matching regular entry, named by its path inside the archive, and every
      earlier entry either fails the patterns or is a readable directory.
      There is no result exactly when no entry decides. An error means that
      the archive did not open, or that the first deciding entry cannot be
      read. */
  lemma UnzipSelectsFirstMatchingFile(patterns: seq<Pattern>, file: File, zip: ZipReader, matches: GlobMatch)
    ensures zip(file.bytes).None? ==> Applied(Unzip(patterns), file, zip, matches) == Err(Io)
    ensures var r := Applied(Unzip(patterns), file, zip, matches);
      r.Ok? && r.value.Some? ==>
        exists i | 0 <= i < |zip(file.bytes).value| ::
          var e := zip(file.bytes).value[i];
          && MatchesAll(e.name, patterns, matches) && e.isFile && e.contents.Some?
          && r.value.value == File(e.name, e.contents.value)
          && forall j | 0 <= j < i :: !Decides(zip(file.bytes).value[j], patterns, matches)
    ensures var r := Applied(Unzip(patterns), file, zip, matches);
      r == Ok(None) <==>
        zip(file.bytes).Some? && forall j | 0 <= j < |zip(file.bytes).value| :: !Decides(zip(file.bytes).value[j], patterns, matches)
    ensures var r := Applied(Unzip(patterns), file, zip, matches);
      r.Err? <==>
        zip(file.bytes).None? ||
        exists i | 0 <= i < |zip(file.bytes).value| ::
          && Decides(zip(file.bytes).value[i], patterns, matches) && zip(file.bytes).value[i].contents.None?
          && forall j | 0 <= j < i :: !Decides(zip(file.bytes).value[j], patterns, matches)
    ensures var r := Applied(Unzip(patterns), file, zip, matches);
      r.Err? ==> r.error == Io
  {
    var r := Applied(Unzip(patterns), file, zip, matches);
    if zip(file.bytes).Some? {
      var archive := zip(file.bytes).value;
      var first := FirstDeciding(archive, patterns, matches);
      if r.Err? {
        assert Decides(archive[first.value], patterns, matches);
      }
      forall i | 0 <= i < |archive| && Decides(archive[i], patterns, matches) && archive[i].contents.None?
                 && (forall j | 0 <= j < i :: !Decides(archive[j], patterns, matches))
        ensures r.Err?
      {
        assert first.Some?;
        assert first.value == i;
      }
    }
  }

  /** `zip.file_names().filter(matches_all)`: the matching entries, in order. */
  function Matching(archive: seq<ArchiveEntry>, patterns: seq<Pattern>, matches: GlobMatch): (r: seq<ArchiveEntry>)
    ensures forall e | e in r :: e in archive && MatchesAll(e.name, patterns, matches)
    decreases |archive|
  {
    if archive == [] then []
    else if MatchesAll(archive[0].name, patterns, matches) then [archive[0]] + Matching(archive[1..], patterns, matches)
    else Matching(archive[1..], patterns, matches)
  }

  /** The loop over the matching entries: the first one that cannot be read
      is an error, the first readable regular file is the result, readable
      directories are passed over. */
  function FirstFile(entries: seq<ArchiveEntry>): Result<Option<File>>
    decreases |entries|
  {
    if entries == [] then Ok(None)
    else if entries[0].contents.None? then Err(Io)
    else if entries[0].isFile then Ok(Some(FileOf(entries[0])))
    else FirstFile(entries[1..])
  }

  /** Filtering by the patterns first and then scanning the entries gives
      the same result as `Unzipped`. */
  lemma {:induction false} FilterThenFirstFile(archive: seq<ArchiveEntry>, patterns: seq<Pattern>, matches: GlobMatch)
    ensures FirstFile(Matching(archive, patterns, matches)) == Unzipped(archive, patterns, matches)
    decreases |archive|
  {
    if archive != [] {
      FilterThenFirstFile(archive[1..], patterns, matches);
      var rest := FirstDeciding(archive[1..], patterns, matches);
      if !Decides(archive[0], patterns, matches) {
        assert FirstDeciding(archive, patterns, matches) == if rest.None? then None else Some(rest.value + 1);
        if rest.Some? {
          assert archive[rest.value + 1] == archive[1..][rest.value];
        }
        if MatchesAll(archive[0].name, patterns, matches) {
          var m := Matching(archive, patterns, matches);
          assert m == [archive[0]] + Matching(archive[1..], patterns, matches);
          assert m[1..] == Matching(archive[1..], patterns, matches);
        }
      }
    }
  }

  /** The blocking closure of `apply_unzip`: collect the matching names, then
      open each in turn until a regular file is read or an entry fails. */
  method ApplyUnzip(file: File, patterns: seq<Pattern>, zip: ZipReader, matches: GlobMatch) returns (r: Result<Option<File>>)
    ensures r == Applied(Unzip(patterns), file, zip, matches)
  {
    var archive := zip(file.bytes);
    if archive.None? {
      return Err(Io);
    }
    var jars := Matching(archive.value, patterns, matches);
    FilterThenFirstFile(archive.value, patterns, matches);
    var i := 0;
    while i < |jars|
      invariant 0 <= i <= |jars|
      invariant FirstFile(jars[i..]) == Unzipped(archive.value, patterns, matches)
    {
      if jars[i].contents.None? {
        return Err(Io);
      }
      if jars[i].isFile {
        return Ok(Some(FileOf(jars[i])));
      }
      assert jars[i..][1..] == jars[i + 1..];
      i := i + 1;
    }
    r := Ok(None);
  }

  /** `Transform::apply`. */
  method Apply(t: Transform, file: File, zip: ZipReader, matches: GlobMatch) returns (r: Result<Option<File>>)
    ensures r == Applied(t, file, zip, matches)
  {
    match t {
      case Direct =>
        r := Ok(Some(file));
      case Unzip(patterns) =>
        r := ApplyUnzip(file, patterns, zip, matches);
    }
  }
}
