/** src/source.rs: dispatch of a configured source to its provider, and the
    `owner/repository` reading of a GitHub reference. */
module Sources {
  import opened Common
  import opened Cache
  import opened Transform
  import opened Remote
  import opened Pipeline
  import opened Destinations
  import GitHub
  import Modrinth
  import Http
  import PathSource

  /** The number of `/` characters in `s`. */
  function Slashes(s: string): nat
  {
    if s == [] then 0 else (if s[0] == '/' then 1 else 0) + Slashes(s[1..])
  }

  /** The inverse of splitting: the parts with `/` between them. */
  function JoinParts(parts: seq<string>): string
    requires |parts| >= 1
  {
    if |parts| == 1 then parts[0] else parts[0] + "/" + JoinParts(parts[1..])
  }

  /** `s.split("/")`: the maximal runs between slashes, empty runs included,
      so that `""` gives one empty part and `"a/"` gives `"a"` and `""`. */
  function Split(s: string): (parts: seq<string>)
    ensures |parts| == Slashes(s) + 1
    ensures forall k | 0 <= k < |parts| :: '/' !in parts[k]
    ensures JoinParts(parts) == s
  {
    if s == [] then [""]
    else if s[0] == '/' then
      var rest := Split(s[1..]);
      assert ([""] + rest)[1..] == rest;
      [""] + rest
    else
      var rest := Split(s[1..]);
      var parts := [[s[0]] + rest[0]] + rest[1..];
      assert parts[1..] == rest[1..];
      assert s == [s[0]] + s[1..];
      parts
  }

  /** Splitting a text without `/` that is followed by `/` and more. */
  lemma {:induction false} SplitAtFirstSlash(a: string, b: string)
    requires '/' !in a
    ensures Split(a + "/" + b) == [a] + Split(b)
    decreases |a|
  {
    if a == [] {
      assert ("/" + b)[1..] == b;
    } else {
      var s := a + "/" + b;
      assert s[1..] == a[1..] + "/" + b;
      SplitAtFirstSlash(a[1..], b);
      assert [a[0]] + a[1..] == a;
    }
  }

  /** A text without `/` is a single part. */
  lemma {:induction false} SplitWithoutSlash(a: string)
    requires '/' !in a
    ensures Split(a) == [a]
    decreases |a|
  {
    if a != [] {
      SplitWithoutSlash(a[1..]);
      assert [a[0]] + a[1..] == a;
    }
  }

  /** Joining parts free of `/` and splitting again gives the parts back. */
  lemma {:induction false} SplitJoinParts(parts: seq<string>)
    requires |parts| >= 1 && forall k | 0 <= k < |parts| :: '/' !in parts[k]
    ensures Split(JoinParts(parts)) == parts
    decreases |parts|
  {
    if |parts| == 1 {
      SplitWithoutSlash(parts[0]);
    } else {
      SplitJoinParts(parts[1..]);
      SplitAtFirstSlash(parts[0], JoinParts(parts[1..]));
      assert [parts[0]] + parts[1..] == parts;
    }
  }

  /** The `GitHubArtifacts` arm before it calls the provider: the reference
      must split into exactly two parts, owner and repository. */
  function GitHubTarget(github: string, workflow: Option<string>, branch: Option<string>, artifact: Option<string>)
    : (r: Result<(string, string, GitHub.Filter)>)
    ensures r.Ok? <==> Slashes(github) == 1
    ensures r.Err? ==> r.error == MalformedGitHubReference(github)
    ensures r.Ok? ==> github == r.value.0 + "/" + r.value.1 && '/' !in r.value.0 && '/' !in r.value.1
    ensures r.Ok? ==> r.value.2 == GitHub.Filter(workflow, branch, artifact)
  {
    var parts := Split(github);
    if |parts| == 2 then
      assert parts[1..] == [parts[1]];
      assert JoinParts(parts) == parts[0] + "/" + parts[1];
      Ok((parts[0], parts[1], GitHub.Filter(workflow, branch, artifact)))
    else Err(MalformedGitHubReference(github))
  }

  /** Every `owner/repository` pair without further slashes is accepted as itself. */
  lemma OwnerRepositoryAccepted(owner: string, repository: string)
    requires '/' !in owner && '/' !in repository
    ensures var r := GitHubTarget(owner + "/" + repository, None, None, None);
      r.Ok? && r.value.0 == owner && r.value.1 == repository
  {
    SplitJoinParts([owner, repository]);
    assert JoinParts([owner, repository]) == owner + "/" + repository by {
      assert [owner, repository][1..] == [repository];
    }
  }

  /** A bare name, a three-part path and a trailing slash are all malformed. */
  lemma MalformedReferences()
    ensures GitHubTarget("a", None, None, None) == Err(MalformedGitHubReference("a"))
    ensures GitHubTarget("a/b/c", None, None, None) == Err(MalformedGitHubReference("a/b/c"))
    ensures GitHubTarget("a/b/", None, None, None) == Err(MalformedGitHubReference("a/b/"))
  {
    assert Slashes("a") == 0 by { assert "a"[1..] == []; }
    assert Slashes("a/b/c") == 2 by {
      assert "a/b/c"[1..] == "/b/c" && "/b/c"[1..] == "b/c" && "b/c"[1..] == "/c" && "/c"[1..] == "c" && "c"[1..] == [];
    }
    assert Slashes("a/b/") == 2 by {
      assert "a/b/"[1..] == "/b/" && "/b/"[1..] == "b/" && "b/"[1..] == "/" && "/"[1..] == [];
    }
  }

  /** The built-in configuration fills `mods` from one URL, through `Direct`:
      whatever body that URL serves is installed unchanged under the release's
      jar name, the URL's last segment. */
  lemma DefaultInstallsFabricApiJar(body: Bytes, zip: ZipReader, matches: GlobMatch)
    ensures DefaultDestinations().Keys == {"mods"}
    ensures var sets := DefaultDestinations()["mods"].sources;
      |sets| == 1 && sets[0].1.sources == [("fabric-api", Url(FabricApiUrl))] &&
      Applied(sets[0].1.transform, File(Http.FileName(FabricApiUrl), body), zip, matches)
        == Ok(Some(File(FabricApiJar, body)))
  {
    assert '/' !in FabricApiJar;
    Http.FileNameAfterLastSlash(FabricApiRelease, FabricApiJar);
  }

  /** `source::load`: what loading `source` does, by variant. */
  ghost predicate LoadSpec(env: Env, root: Path, unwritable: set<Path>, s0: State, e: Entry, source: Source,
                           t: Transform, s1: State, r: Result<Reference>, fetched: bool)
    requires Keyed(s0.entries)
  {
    match source
    case GitHubArtifacts(github, workflow, branch, artifact) =>
      (match GitHubTarget(github, workflow, branch, artifact)
       case Err(err) => r == Err(err) && !fetched && s1 == s0
       case Ok((owner, repository, _)) => GitHub.LoadSpec(env, root, unwritable, s0, e, owner, repository, t, s1, r, fetched))
    case Modrinth(projectId, gameVersion) => Modrinth.LoadSpec(env, root, unwritable, s0, e, projectId, gameVersion, t, s1, r, fetched)
    case Url(url) => Http.LoadSpec(env, root, unwritable, s0, e, url, t, s1, r, fetched)
    case LocalPath(path) => PathSource.LoadSpec(env, root, unwritable, s0, e, path, t, s1, r, fetched)
  }

  /** What the cache records for `key` after a load is what the load returned. */
  ghost predicate Recorded(root: Path, s: State, key: string, reference: Reference)
  {
    key in s.entries && reference == Reference(PathFor(root, key), s.entries[key].fileName)
  }

  lemma DecidedRecords(root: Path, unwritable: set<Path>, s0: State, e: Entry, token: Tokens.Token, payload: Result<File>,
                       t: Transform, env: Env, s1: State, r: Result<Reference>, fetched: bool)
    requires Keyed(s0.entries)
    requires Decided(root, unwritable, s0, e, token, payload, t, env, s1, r, fetched)
    ensures r.Ok? ==> Recorded(root, s1, e.key, r.value)
    ensures r.Err? ==> s1.entries == s0.entries
  {
  }

  /** Whichever provider ran, a successful load returns the cache's own
      record for the key: the blob at `root/key` under the recorded file
      name. A failed load leaves the index unchanged. */
  lemma LoadRecords(env: Env, root: Path, unwritable: set<Path>, s0: State, e: Entry, source: Source,
                    t: Transform, s1: State, r: Result<Reference>, fetched: bool)
    requires Keyed(s0.entries)
    requires LoadSpec(env, root, unwritable, s0, e, source, t, s1, r, fetched)
    ensures r.Ok? ==> Recorded(root, s1, e.key, r.value)
    ensures r.Err? ==> s1.entries == s0.entries
  {
    match source {
      case GitHubArtifacts(github, workflow, branch, artifact) =>
        var target := GitHubTarget(github, workflow, branch, artifact);
        if target.Ok? {
          var (owner, repository, _) := target.value;
          var listing := env.listArtifacts(owner, repository);
          if listing.Ok? && GitHub.LatestArtifact(listing.value).Some? {
            var (id, url, name) := GitHub.LatestArtifact(listing.value).value;
            DecidedRecords(root, unwritable, s0, e, Tokens.ArtifactId(id), GitHub.Payload(env, url, name), t, env, s1, r, fetched);
          }
        }
      case Modrinth(projectId, gameVersion) =>
        var listing := env.modrinthVersions(Modrinth.VersionsUrl(projectId, gameVersion));
        if listing.Ok? && Modrinth.Resolved(listing.value).Some? {
          var (hash, url, name) := Modrinth.Resolved(listing.value).value;
          DecidedRecords(root, unwritable, s0, e, Tokens.Sha512(hash), Modrinth.Payload(env, url, name), t, env, s1, r, fetched);
        }
      case Url(url) =>
        var response := env.httpGet(url);
        if response.Ok? && Http.EtagToken(response.value.etag).Ok? {
          var token := Http.EtagToken(response.value.etag).value;
          DecidedRecords(root, unwritable, s0, e, token, Http.Payload(url, response.value.body), t, env, s1, r, fetched);
        }
      case LocalPath(path) =>
        if path in s0.files {
          var bytes := s0.files[path];
          DecidedRecords(root, unwritable, s0, e, Tokens.Sha1(env.sha1(bytes)), PathSource.Payload(path, bytes), t, env, s1, r, fetched);
        }
    }
  }

  /** `source::load`. */
  method Load(env: Env, loader: Loader, e: Entry, source: Source, t: Transform) returns (r: Result<Reference>, fetched: bool)
    requires loader.Valid() && e.current == CurrentToken(loader.entries, e.key)
    modifies loader, loader.fs
    ensures loader.Valid()
    ensures LoadSpec(env, loader.root, loader.fs.unwritable, old(loader.Snapshot()), e, source, t, loader.Snapshot(), r, fetched)
  {
    match source {
      case GitHubArtifacts(github, workflow, branch, artifact) =>
        var target := GitHubTarget(github, workflow, branch, artifact);
        if target.Err? {
          r, fetched := Err(target.error), false;
        } else {
          var (owner, repository, filter) := target.value;
          r, fetched := GitHub.Load(env, loader, e, owner, repository, filter, t);
        }
      case Modrinth(projectId, gameVersion) =>
        r, fetched := Modrinth.Load(env, loader, e, projectId, gameVersion, t);
      case Url(url) =>
        r, fetched := Http.Load(env, loader, e, url, t);
      case LocalPath(path) =>
        r, fetched := PathSource.Load(env, loader, e, path, t);
    }
  }
}
