/** src/source/path.rs: a file on the local disk, identified by the SHA-1
    digest of its contents. */
module PathSource {
  import opened Common
  import opened Tokens
  import opened Cache
  import opened Files
  import opened Transform
  import opened Remote
  import opened Pipeline

  /** `Path::file_name`: the last component once trailing `.` components are
      dropped; nothing when no component is left or the last one is `..`. */
  function PathFileName(p: Path): (r: Option<string>)
    ensures r.Some? ==> r.value in p.segments && r.value != "." && r.value != ".."
    decreases |p.segments|
  {
    if p.segments == [] then None
    else
      var last := p.segments[|p.segments| - 1];
      if last == "." then
        var r := PathFileName(Path(p.segments[..|p.segments| - 1]));
        assert r.Some? ==> r.value in p.segments[..|p.segments| - 1];
        r
      else if last == ".." then None
      else Some(last)
  }

  /** A path that ends in an ordinary name has that name as its file name. */
  lemma FileNameOfJoin(dir: Path, name: string)
    requires name != "." && name != ".."
    ensures PathFileName(Join(dir, name)) == Some(name)
  {
  }

  /** Trailing `.` components do not change the file name: `a/b/.` names `b`. */
  lemma TrailingDotIgnored(dir: Path, name: string)
    requires name != "." && name != ".."
    ensures PathFileName(Path(dir.segments + [name, "."])) == Some(name)
  {
    assert (dir.segments + [name, "."])[..|dir.segments| + 1] == dir.segments + [name];
  }

  /** A path ending in `..` has no file name: loading it panics on a mismatch. */
  lemma ParentHasNoFileName(dir: Path)
    ensures PathFileName(Join(dir, "..")) == None
  {
  }

  /** The fetched file: the bytes under the path's file name, or the panic of
      `file_name().and_then(..).unwrap()`. */
  function Payload(path: Path, bytes: Bytes): Result<File>
  {
    match PathFileName(path)
    case None => Err(Panic("path has no file name"))
    case Some(name) => Ok(File(name, bytes))
  }

  /** A file read from `dir/name` is handed on under `name` with exactly the
      bytes read; one read from `dir/..` makes the `unwrap` panic. */
  lemma PayloadOfJoin(dir: Path, name: string, bytes: Bytes)
    requires name != "." && name != ".."
    ensures Payload(Join(dir, name), bytes) == Ok(File(name, bytes))
    ensures Payload(Join(dir, ".."), bytes).Err? && Payload(Join(dir, ".."), bytes).error.Panic?
  {
    FileNameOfJoin(dir, name);
    ParentHasNoFileName(dir);
  }

  /** `path::load`, step by step: the file is read before the cache is
      consulted, so a missing file fails even when a cached copy exists. */
  ghost predicate LoadSpec(env: Env, root: Path, unwritable: set<Path>, s0: State, e: Entry, path: Path,
                           t: Transform, s1: State, r: Result<Reference>, fetched: bool)
    requires Keyed(s0.entries)
  {
    if path !in s0.files then r == Err(Io) && !fetched && s1 == s0
    else
      var bytes := s0.files[path];
      Decided(root, unwritable, s0, e, Sha1(env.sha1(bytes)), Payload(path, bytes), t, env, s1, r, fetched)
  }

  /** A file whose contents are unchanged since it was cached is not copied again. */
  lemma UnchangedFileMatches(env: Env, root: Path, unwritable: set<Path>, s0: State, e: Entry, path: Path,
                             t: Transform, s1: State, r: Result<Reference>, fetched: bool)
    requires Keyed(s0.entries) && path in s0.files
    requires e.key in s0.entries && e.current == s0.entries[e.key].token
    requires s0.entries[e.key].token == Sha1(env.sha1(s0.files[path]))
    requires LoadSpec(env, root, unwritable, s0, e, path, t, s1, r, fetched)
    ensures !fetched && s1 == s0 && r == Ok(Reference(PathFor(root, e.key), s0.entries[e.key].fileName))
  {
  }

  method Load(env: Env, loader: Loader, e: Entry, path: Path, t: Transform) returns (r: Result<Reference>, fetched: bool)
    requires loader.Valid() && e.current == CurrentToken(loader.entries, e.key)
    modifies loader, loader.fs
    ensures loader.Valid()
    ensures LoadSpec(env, loader.root, loader.fs.unwritable, old(loader.Snapshot()), e, path, t, loader.Snapshot(), r, fetched)
  {
    var read := loader.fs.Read(path);
    if read.Err? {
      return Err(read.error), false;
    }
    var bytes := read.value;
    match TryUpdate(loader.root, loader.entries, e, Sha1(env.sha1(bytes))) {
      case Match(reference) =>
        r, fetched := Ok(reference), false;
      case Mismatch(updater) =>
        fetched := true;
        var payload := Payload(path, bytes);
        if payload.Err? {
          r := Err(payload.error);
        } else {
          r := Commit(loader, updater, payload.value, t, env);
        }
    }
  }
}
