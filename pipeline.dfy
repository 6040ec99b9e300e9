/** The decision flow every provider in src/source/ follows once it has a
    token: `try_update`; on a match return the cached reference; on a
    mismatch fetch the payload, run the transform and commit, or fail with
    `MissingArtifact` when the transform yields nothing. */
module Pipeline {
  import opened Common
  import opened Tokens
  import opened Cache
  import opened Transform
  import opened Remote

  /** The mismatch arm: transform the payload, then store it or report
      `MissingArtifact`. Any failure leaves cache and files untouched. */
  ghost predicate Committed(root: Path, unwritable: set<Path>, s0: State, key: string, token: Token,
                            payload: Result<File>, t: Transform, env: Env, s1: State, r: Result<Reference>)
    requires Keyed(s0.entries)
  {
    match payload
    case Err(err) => r == Err(err) && s1 == s0
    case Ok(file) =>
      match Applied(t, file, env.zip, env.globMatches)
      case Err(err) => r == Err(err) && s1 == s0
      case Ok(None) => r == Err(MissingArtifact) && s1 == s0
      case Ok(Some(f)) => Stored(root, unwritable, s0, key, token, f, s1, r)
  }

  /** The whole flow after a provider has resolved `token`. `fetched` says
      whether the provider went on to fetch the payload: never on a match. */
  ghost predicate Decided(root: Path, unwritable: set<Path>, s0: State, e: Entry, token: Token,
                          payload: Result<File>, t: Transform, env: Env, s1: State, r: Result<Reference>, fetched: bool)
    requires Keyed(s0.entries)
  {
    if TokenEq(e.current, token) then
      && !fetched
      && GetReference(root, s0.entries, e.key).Some?
      && r == Ok(GetReference(root, s0.entries, e.key).value)
      && s1 == s0
    else
      fetched && Committed(root, unwritable, s0, e.key, token, payload, t, env, s1, r)
  }

  /** The fallback of the GitHub and Modrinth providers when no version is
      available: the existing reference, or `MissingArtifact`. */
  ghost predicate FellBack(root: Path, s0: State, e: Entry, s1: State, r: Result<Reference>, fetched: bool)
  {
    && !fetched
    && s1 == s0
    && r == match GetReference(root, s0.entries, e.key)
            case Some(reference) => Ok(reference)
            case None => Err(MissingArtifact)
  }

  /** The mismatch step shared by all four providers: run the transform,
      store what it yields through the updater, and report `MissingArtifact`
      when it yields nothing. */
  method Commit(loader: Loader, u: EntryUpdater, file: File, t: Transform, env: Env) returns (r: Result<Reference>)
    requires loader.Valid()
    modifies loader, loader.fs
    ensures loader.Valid()
    ensures Committed(loader.root, loader.fs.unwritable, old(loader.Snapshot()), u.entry.key, u.token, Ok(file), t, env, loader.Snapshot(), r)
  {
    var transformed := Apply(t, file, env.zip, env.globMatches);
    match transformed {
      case Err(err) =>
        r := Err(err);
      case Ok(None) =>
        r := Err(MissingArtifact);
      case Ok(Some(f)) =>
        r := loader.Update(u, f);
    }
  }
}
