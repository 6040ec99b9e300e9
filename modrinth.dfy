/** src/source/modrinth.rs: a Modrinth project, resolved to one version and
    identified by the sha512 hash of that version's primary file. */
module Modrinth {
  import opened Common
  import opened Tokens
  import opened Cache
  import opened Transform
  import opened Remote
  import opened Pipeline

  const BaseUrl: string := "https://api.modrinth.com"

  /** `Client::get_versions`: the version listing of a project, filtered by
      game version when one is configured. */
  function VersionsUrl(projectId: string, gameVersion: Option<string>): string
  {
    match gameVersion
    case Some(v) => BaseUrl + "/v2/project/" + projectId + "/version?game_version=" + v
    case None => BaseUrl + "/v2/project/" + projectId + "/version"
  }

  /** For a project id without `?`, the listing URL carries a query exactly
      when a game version is configured. */
  lemma VersionsUrlQuery(projectId: string, gameVersion: Option<string>)
    requires '?' !in projectId
    ensures '?' in VersionsUrl(projectId, gameVersion) <==> gameVersion.Some?
  {
    var head := BaseUrl + "/v2/project/" + projectId + "/version";
    assert '?' !in BaseUrl + "/v2/project/";
    assert '?' !in head by {
      assert head == (BaseUrl + "/v2/project/") + projectId + "/version";
    }
    if gameVersion.Some? {
      var url := VersionsUrl(projectId, gameVersion);
      assert url == head + "?game_version=" + gameVersion.value;
      assert url[|head|] == '?';
    }
  }

  /** For the same game-version filter, different projects are listed from
      different URLs. */
  lemma VersionsUrlSeparatesProjects(a: string, b: string, gameVersion: Option<string>)
    requires VersionsUrl(a, gameVersion) == VersionsUrl(b, gameVersion)
    ensures a == b
  {
    var prefix := BaseUrl + "/v2/project/";
    var suffix := match gameVersion
      case Some(v) => "/version?game_version=" + v
      case None => "/version";
    var ua := VersionsUrl(a, gameVersion);
    assert ua == prefix + a + suffix;
    assert VersionsUrl(b, gameVersion) == prefix + b + suffix;
    assert a == ua[|prefix|..|ua| - |suffix|];
    assert b == ua[|prefix|..|ua| - |suffix|];
  }

  /** `files.iter().filter(|f| f.primary).next()`: the first primary file. */
  function PrimaryIndex(files: seq<ProjectFile>): (r: Option<nat>)
    ensures r.Some? ==> r.value < |files| && files[r.value].primary
    ensures r.Some? ==> forall j | 0 <= j < r.value :: !files[j].primary
    ensures r.None? <==> forall j | 0 <= j < |files| :: !files[j].primary
  {
    if files == [] then None
    else if files[0].primary then Some(0)
    else
      match PrimaryIndex(files[1..])
      case None => None
      case Some(i) => Some(i + 1)
  }

  /** A version `resolve_version` can use: it has a primary file, and that
      file carries a sha512 hash. A version with a primary file but no hash
      is skipped with a warning. */
  predicate Qualifies(v: ProjectVersion)
  {
    PrimaryIndex(v.files).Some? && v.files[PrimaryIndex(v.files).value].sha512.Some?
  }

  predicate Sorted(vs: seq<ProjectVersion>)
  {
    forall i, j | 0 <= i < j < |vs| :: vs[i].datePublished <= vs[j].datePublished
  }

  /** Inserts `x` after every element published no later than it. */
  function Insert(s: seq<ProjectVersion>, x: ProjectVersion): (r: seq<ProjectVersion>)
    ensures |r| == |s| + 1
  {
    if s == [] then [x]
    else if x.datePublished < s[0].datePublished then [x] + s
    else [s[0]] + Insert(s[1..], x)
  }

  lemma {:induction false} InsertPermutes(s: seq<ProjectVersion>, x: ProjectVersion)
    ensures multiset(Insert(s, x)) == multiset(s) + multiset{x}
    decreases |s|
  {
    if s != [] && x.datePublished >= s[0].datePublished {
      InsertPermutes(s[1..], x);
      assert s == [s[0]] + s[1..];
    }
  }

  lemma {:induction false} InsertSorted(s: seq<ProjectVersion>, x: ProjectVersion)
    requires Sorted(s)
    ensures Sorted(Insert(s, x))
    decreases |s|
  {
    if s != [] && x.datePublished >= s[0].datePublished {
      var rest := Insert(s[1..], x);
      InsertSorted(s[1..], x);
      InsertPermutes(s[1..], x);
      forall k | 0 <= k < |rest|
        ensures s[0].datePublished <= rest[k].datePublished
      {
        assert rest[k] in multiset(s[1..]) + multiset{x};
      }
    }
  }

  /** `versions.sort_by_key(|v| v.date_published)`: a stable sort by date. */
  function SortByDate(vs: seq<ProjectVersion>): (r: seq<ProjectVersion>)
    ensures Sorted(r) && multiset(r) == multiset(vs)
  {
    if vs == [] then []
    else
      var last := |vs| - 1;
      var init := SortByDate(vs[..last]);
      InsertSorted(init, vs[last]);
      InsertPermutes(init, vs[last]);
      assert vs == vs[..last] + [vs[last]];
      Insert(init, vs[last])
  }

  /** The first qualifying version of a list, as the `for` loop finds it. */
  function FirstQualifying(vs: seq<ProjectVersion>): (r: Option<ProjectVersion>)
    ensures r.Some? ==> r.value in vs && Qualifies(r.value)
    ensures r.Some? ==> exists i | 0 <= i < |vs| && vs[i] == r.value :: forall j | 0 <= j < i :: !Qualifies(vs[j])
    ensures r.None? <==> forall j | 0 <= j < |vs| :: !Qualifies(vs[j])
  {
    if vs == [] then None
    else if Qualifies(vs[0]) then Some(vs[0])
    else
      var r := FirstQualifying(vs[1..]);
      if r.None? then r
      else
        var i :| 0 <= i < |vs[1..]| && vs[1..][i] == r.value && forall j | 0 <= j < i :: !Qualifies(vs[1..][j]);
        assert vs[i + 1] == r.value && forall j | 0 <= j < i + 1 :: !Qualifies(vs[j]);
        r
  }

  /** The version the provider is meant to pick, stated without sorting: the
      qualifying version published first, and of several published at that
      instant the one listed first (`EarliestMeaning`). */
  function Earliest(vs: seq<ProjectVersion>): (r: Option<ProjectVersion>)
    ensures r.Some? ==> r.value in vs && Qualifies(r.value)
    ensures r.None? <==> forall j | 0 <= j < |vs| :: !Qualifies(vs[j])
  {
    if vs == [] then None
    else
      var last := |vs| - 1;
      var best := Earliest(vs[..last]);
      var x := vs[last];
      assert vs == vs[..last] + [x];
      if Qualifies(x) && (best.None? || x.datePublished < best.value.datePublished) then Some(x) else best
  }

  lemma {:induction false} EarliestMeaning(vs: seq<ProjectVersion>)
    ensures var r := Earliest(vs);
      r.Some? ==>
        (forall j | 0 <= j < |vs| && Qualifies(vs[j]) :: r.value.datePublished <= vs[j].datePublished) &&
        (exists i | 0 <= i < |vs| && vs[i] == r.value ::
          forall j | 0 <= j < i && Qualifies(vs[j]) :: vs[j].datePublished > r.value.datePublished)
    decreases |vs|
  {
    if vs != [] {
      var last := |vs| - 1;
      var init := vs[..last];
      EarliestMeaning(init);
      var best := Earliest(init);
      var x := vs[last];
      var r := Earliest(vs);
      if Qualifies(x) && (best.None? || x.datePublished < best.value.datePublished) {
        assert forall j | 0 <= j < last :: vs[j] == init[j];
        assert vs[last] == r.value;
      } else if best.Some? {
        var i :| 0 <= i < |init| && init[i] == best.value &&
          forall j | 0 <= j < i && Qualifies(init[j]) :: init[j].datePublished > best.value.datePublished;
        assert vs[i] == r.value;
        assert forall j | 0 <= j < last :: vs[j] == init[j];
      }
    }
  }

  /** Inserting `x` into a sorted list changes its first qualifying version
      only when `x` qualifies and is strictly older. */
  lemma {:induction false} FirstQualifyingAfterInsert(s: seq<ProjectVersion>, x: ProjectVersion)
    requires Sorted(s)
    ensures var f := FirstQualifying(s);
      FirstQualifying(Insert(s, x)) ==
        if Qualifies(x) && (f.None? || x.datePublished < f.value.datePublished) then Some(x) else f
    decreases |s|
  {
    if s == [] {
    } else if x.datePublished < s[0].datePublished {
      var r := [x] + s;
      assert r[1..] == s;
      var f := FirstQualifying(s);
      if f.Some? {
        var i :| 0 <= i < |s| && s[i] == f.value;
        assert s[0].datePublished <= s[i].datePublished;
      }
    } else {
      var rest := Insert(s[1..], x);
      var r := [s[0]] + rest;
      assert r[1..] == rest;
      FirstQualifyingAfterInsert(s[1..], x);
      if !Qualifies(s[0]) {
        assert FirstQualifying(s) == FirstQualifying(s[1..]);
      }
    }
  }

  /** Sorting by date and taking the first qualifying version picks exactly
      the reference version `Earliest`: the sort is stable, so among versions
      published at the same instant the one listed first wins. */
  lemma {:induction false} SortedScanPicksEarliest(vs: seq<ProjectVersion>)
    ensures FirstQualifying(SortByDate(vs)) == Earliest(vs)
    decreases |vs|
  {
    if vs != [] {
      var last := |vs| - 1;
      SortedScanPicksEarliest(vs[..last]);
      FirstQualifyingAfterInsert(SortByDate(vs[..last]), vs[last]);
    }
  }

  /** What `resolve_version` returns for a version: the primary file's hash,
      URL and file name. */
  function Pick(v: ProjectVersion): (string, string, string)
    requires Qualifies(v)
  {
    var f := v.files[PrimaryIndex(v.files).value];
    (f.sha512.value, f.url, f.filename)
  }

  /** `resolve_version` after the listing has arrived. */
  function Resolved(vs: seq<ProjectVersion>): (r: Option<(string, string, string)>)
    ensures r.None? <==> forall j | 0 <= j < |vs| :: !Qualifies(vs[j])
    ensures r.Some? ==> Earliest(vs).Some? && r.value == Pick(Earliest(vs).value)
  {
    SortedScanPicksEarliest(vs);
    var sorted := SortByDate(vs);
    assert forall j | 0 <= j < |vs| :: vs[j] in multiset(sorted);
    match FirstQualifying(sorted)
    case None => None
    case Some(v) => Some(Pick(v))
  }

  /** An older version whose primary file has no hash is passed over for a
      newer one that has. */
  lemma UnhashedVersionSkipped(older: ProjectVersion, newer: ProjectVersion)
    requires older.datePublished < newer.datePublished
    requires PrimaryIndex(older.files).Some? && older.files[PrimaryIndex(older.files).value].sha512.None?
    requires Qualifies(newer)
    ensures Resolved([newer, older]) == Some(Pick(newer))
  {
    var vs := [newer, older];
    assert !Qualifies(older);
    assert vs[..1] == [newer];
    assert [newer][..0] == [];
  }

  /** `resolve_version`'s loop over the sorted listing, returning at the
      first version whose primary file has a hash. */
  method ResolveVersion(vs: seq<ProjectVersion>) returns (r: Option<(string, string, string)>)
    ensures r == Resolved(vs)
  {
    var sorted := SortByDate(vs);
    var i := 0;
    while i < |sorted|
      invariant 0 <= i <= |sorted|
      invariant FirstQualifying(sorted[i..]) == FirstQualifying(sorted)
    {
      var version := sorted[i];
      assert sorted[i..][0] == version && sorted[i..][1..] == sorted[i + 1..];
      var primary := PrimaryIndex(version.files);
      if primary.Some? && version.files[primary.value].sha512.Some? {
        var file := version.files[primary.value];
        assert FirstQualifying(sorted) == Some(version);
        return Some((file.sha512.value, file.url, file.filename));
      }
      assert FirstQualifying(sorted[i..]) == FirstQualifying(sorted[i + 1..]);
      i := i + 1;
    }
    assert sorted[i..] == [];
    r := None;
  }

  /** The fetched file: the primary file's bytes under `<filename>.zip`. */
  function Payload(env: Env, url: string, name: string): Result<File>
  {
    match env.modrinthDownload(url)
    case Err(err) => Err(err)
    case Ok(bytes) => Ok(File(name + ".zip", bytes))
  }

  /** `modrinth::load`, step by step. */
  ghost predicate LoadSpec(env: Env, root: Path, unwritable: set<Path>, s0: State, e: Entry, projectId: string,
                           gameVersion: Option<string>, t: Transform, s1: State, r: Result<Reference>, fetched: bool)
    requires Keyed(s0.entries)
  {
    match env.modrinthVersions(VersionsUrl(projectId, gameVersion))
    case Err(err) => r == Err(err) && !fetched && s1 == s0
    case Ok(vs) =>
      match Resolved(vs)
      case None => FellBack(root, s0, e, s1, r, fetched)
      case Some((hash, url, name)) => Decided(root, unwritable, s0, e, Sha512(hash), Payload(env, url, name), t, env, s1, r, fetched)
  }

  method Load(env: Env, loader: Loader, e: Entry, projectId: string, gameVersion: Option<string>, t: Transform)
    returns (r: Result<Reference>, fetched: bool)
    requires loader.Valid() && e.current == CurrentToken(loader.entries, e.key)
    modifies loader, loader.fs
    ensures loader.Valid()
    ensures LoadSpec(env, loader.root, loader.fs.unwritable, old(loader.Snapshot()), e, projectId, gameVersion, t, loader.Snapshot(), r, fetched)
  {
    var listing := env.modrinthVersions(VersionsUrl(projectId, gameVersion));
    if listing.Err? {
      return Err(listing.error), false;
    }
    var latest := ResolveVersion(listing.value);
    if latest.None? {
      var existing := GetReference(loader.root, loader.entries, e.key);
      r := if existing.Some? then Ok(existing.value) else Err(MissingArtifact);
      return r, false;
    }
    var (hash, url, name) := latest.value;
    match TryUpdate(loader.root, loader.entries, e, Sha512(hash)) {
      case Match(reference) =>
        r, fetched := Ok(reference), false;
      case Mismatch(updater) =>
        fetched := true;
        var payload := Payload(env, url, name);
        if payload.Err? {
          r := Err(payload.error);
        } else {
          r := Commit(loader, updater, payload.value, t, env);
        }
    }
  }
}
