/** What the core receives from code it does not own: HTTP, the GitHub and
    Modrinth APIs, SHA-1, the zip and glob crates and the index serialiser.
    Each is a function of its request, passed in explicitly instead of the
    process-wide clients of the source (`octocrab::instance()` and friends).
    A request that fails yields the `crate::Error` it would be converted to. */
module Remote {
  import opened Common
  import opened Cache
  import opened Transform

  /** A response whose headers have arrived; the body is read only on demand.
      `etag` is `None` when the header is missing or not visible ASCII. */
  datatype HttpResponse = HttpResponse(etag: Option<string>, body: Result<Bytes>)

  /** One element of GitHub's `actions/artifacts` listing. */
  datatype Artifact = Artifact(id: nat, name: string, archiveDownloadUrl: Option<string>, expired: bool, updatedAt: int)

  /** A Modrinth `ProjectFile`, with its optional sha512 hash. */
  datatype ProjectFile = ProjectFile(url: string, filename: string, primary: bool, sha512: Option<string>)

  /** A Modrinth `ProjectVersion`; the publication date as a timestamp. */
  datatype ProjectVersion = ProjectVersion(datePublished: int, files: seq<ProjectFile>)

  type Sha1Digest = s: seq<byte> | |s| == 20 witness seq(20, _ => 0 as byte)

  /** `urlParses` says whether `reqwest::Url::parse` accepts a text. */
  datatype Env = Env(
    httpGet: string -> Result<HttpResponse>,
    listArtifacts: (string, string) -> Result<seq<Artifact>>,
    urlParses: string -> bool,
    githubDownload: string -> Result<Bytes>,
    modrinthVersions: string -> Result<seq<ProjectVersion>>,
    modrinthDownload: string -> Result<Bytes>,
    sha1: Bytes -> Sha1Digest,
    zip: ZipReader,
    globMatches: GlobMatch,
    indexCodec: IndexCodec)
}
