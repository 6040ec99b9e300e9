/** src/source/github.rs: the newest GitHub Actions artifact of a
    repository, identified by its artifact id. */
module GitHub {
  import opened Common
  import opened Tokens
  import opened Cache
  import opened Transform
  import opened Remote
  import opened Pipeline

  /** `github::Filter`, built by src/source.rs from the source's optional
      `workflow`, `branch` and `artifact`. The provider as written does not
      consult it. */
  datatype Filter = Filter(workflow: Option<string>, branch: Option<string>, artifact: Option<string>)

  /** The artifacts `get_latest_artifact` considers: not expired and with a
      download URL. */
  predicate Eligible(a: Artifact)
  {
    !a.expired && a.archiveDownloadUrl.Some?
  }

  /** `filter(..).max_by_key(|a| a.updated_at)`: the index of the eligible
      artifact updated last. `max_by_key` keeps the later element on a tie,
      so the result is the last of the eligible artifacts with the greatest
      `updated_at`. */
  function LatestIndex(arts: seq<Artifact>): (r: Option<nat>)
    ensures r.Some? ==> r.value < |arts| && Eligible(arts[r.value])
    ensures r.Some? ==> forall j | 0 <= j < |arts| && Eligible(arts[j]) :: arts[j].updatedAt <= arts[r.value].updatedAt
    ensures r.Some? ==> forall j | r.value < j < |arts| && Eligible(arts[j]) :: arts[j].updatedAt < arts[r.value].updatedAt
    ensures r.None? <==> forall j | 0 <= j < |arts| :: !Eligible(arts[j])
  {
    if arts == [] then None
    else
      var last := |arts| - 1;
      var best := LatestIndex(arts[..last]);
      if Eligible(arts[last]) && (best.None? || arts[last].updatedAt >= arts[best.value].updatedAt) then Some(last)
      else best
  }

  /** The latest artifact is the only index with those three properties. */
  lemma LatestIndexUnique(arts: seq<Artifact>, i: nat)
    requires i < |arts| && Eligible(arts[i])
    requires forall j | 0 <= j < |arts| && Eligible(arts[j]) :: arts[j].updatedAt <= arts[i].updatedAt
    requires forall j | i < j < |arts| && Eligible(arts[j]) :: arts[j].updatedAt < arts[i].updatedAt
    ensures LatestIndex(arts) == Some(i)
  {
  }

  /** Of two eligible artifacts updated at the same time, the later one in
      the listing is chosen. */
  lemma TieGoesToLater(a: Artifact, b: Artifact)
    requires Eligible(a) && Eligible(b) && a.updatedAt == b.updatedAt
    ensures LatestIndex([a, b]) == Some(1)
  {
    assert [a, b][..1] == [a];
    assert [a][..0] == [];
  }

  /** `get_latest_artifact`: the id, download URL and name of the latest artifact. */
  function LatestArtifact(arts: seq<Artifact>): (r: Option<(nat, string, string)>)
    ensures r.None? <==> forall j | 0 <= j < |arts| :: !Eligible(arts[j])
    ensures r.Some? ==> exists i | 0 <= i < |arts| && Eligible(arts[i]) ::
      (forall j | 0 <= j < |arts| && Eligible(arts[j]) :: arts[j].updatedAt <= arts[i].updatedAt) &&
      r.value == (arts[i].id, arts[i].archiveDownloadUrl.value, arts[i].name)
  {
    match LatestIndex(arts)
    case None => None
    case Some(i) => Some((arts[i].id, arts[i].archiveDownloadUrl.value, arts[i].name))
  }

  /** The fetched file: the artifact archive under `<name>.zip`. An
      unparseable URL is the panic of `Url::parse(..).unwrap()`. */
  function Payload(env: Env, url: string, name: string): Result<File>
  {
    if !env.urlParses(url) then Err(Panic("invalid artifact download URL"))
    else
      match env.githubDownload(url)
      case Err(err) => Err(err)
      case Ok(bytes) => Ok(File(name + ".zip", bytes))
  }

  /** `github::load`, step by step. */
  ghost predicate LoadSpec(env: Env, root: Path, unwritable: set<Path>, s0: State, e: Entry, owner: string, repository: string,
                           t: Transform, s1: State, r: Result<Reference>, fetched: bool)
    requires Keyed(s0.entries)
  {
    match env.listArtifacts(owner, repository)
    case Err(err) => r == Err(err) && !fetched && s1 == s0
    case Ok(arts) =>
      match LatestArtifact(arts)
      case None => FellBack(root, s0, e, s1, r, fetched)
      case Some((id, url, name)) => Decided(root, unwritable, s0, e, ArtifactId(id), Payload(env, url, name), t, env, s1, r, fetched)
  }

  method Load(env: Env, loader: Loader, e: Entry, owner: string, repository: string, filter: Filter, t: Transform)
    returns (r: Result<Reference>, fetched: bool)
    requires loader.Valid() && e.current == CurrentToken(loader.entries, e.key)
    modifies loader, loader.fs
    ensures loader.Valid()
    ensures LoadSpec(env, loader.root, loader.fs.unwritable, old(loader.Snapshot()), e, owner, repository, t, loader.Snapshot(), r, fetched)
  {
    var listing := env.listArtifacts(owner, repository);
    if listing.Err? {
      return Err(listing.error), false;
    }
    var latest := LatestArtifact(listing.value);
    if latest.None? {
      var existing := GetReference(loader.root, loader.entries, e.key);
      r := if existing.Some? then Ok(existing.value) else Err(MissingArtifact);
      return r, false;
    }
    var (id, url, name) := latest.value;
    match TryUpdate(loader.root, loader.entries, e, ArtifactId(id)) {
      case Match(reference) =>
        r, fetched := Ok(reference), false;
      case Mismatch(updater) =>
        fetched := true;
        var payload := Payload(env, url, name);
        if payload.Err? {
          r := Err(payload.error);
        } else {
          r := Commit(loader, updater, payload.value, t, env);
        }
    }
  }
}
