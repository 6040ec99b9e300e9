/** Values shared by every part of the wrapper: bytes, paths, files and the
    crate-wide error type (`crate::Error` in main.rs). */
module Common {

  newtype byte = x: int | 0 <= x < 256

  type Bytes = seq<byte>

  datatype Option<+T> = None | Some(value: T)

  /** `crate::Error`, plus `Panic` for the places where the Rust code panics
      (`expect`, `unwrap`, an out-of-range string slice). A panic is not an
      error value in Rust: it unwinds the whole task, which is why the
      destination loop treats it differently from the other variants. */
  datatype Error =
    | Io
    | Zip
    | Reqwest
    | Octocrab
    | MalformedGitHubReference(reference: string)
    | MissingArtifact
    | Panic(reason: string)

  datatype Result<+T> = Ok(value: T) | Err(error: Error)

  /** A path as its list of components; `root.join(name)` appends one. */
  datatype Path = Path(segments: seq<string>)

  function Join(p: Path, name: string): Path
  {
    Path(p.segments + [name])
  }

  /** `p` lies inside the directory `root` (or is `root` itself). */
  predicate Under(p: Path, root: Path)
  {
    |root.segments| <= |p.segments| && p.segments[..|root.segments|] == root.segments
  }

  /** `source::File`: a named blob handed from a provider to a transform. */
  datatype File = File(name: string, bytes: Bytes)
}
