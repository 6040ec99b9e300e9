/** The part of the operating system's filesystem the wrapper touches: regular
    files by path. Directories are implicit (a directory is the set of files
    under its path). A write to a path in `unwritable` fails with an I/O
    error and changes nothing. */
module Files {
  import opened Common

  /** The files left after `remove_dir_all(root)`. */
  function WithoutTree(files: map<Path, Bytes>, root: Path): map<Path, Bytes>
  {
    map p | p in files && !Under(p, root) :: files[p]
  }

  class FileSystem {
    var files: map<Path, Bytes>
    const unwritable: set<Path>

    constructor (files: map<Path, Bytes>, unwritable: set<Path>)
      ensures this.files == files && this.unwritable == unwritable
    {
      this.files := files;
      this.unwritable := unwritable;
    }

    /** `fs::read`: fails when there is no such file. */
    method Read(p: Path) returns (r: Result<Bytes>)
      ensures r.Ok? <==> p in files
      ensures r.Ok? ==> r.value == files[p]
      ensures r.Err? ==> r.error == Io
    {
      if p in files {
        r := Ok(files[p]);
      } else {
        r := Err(Io);
      }
    }

    /** `fs::write`: replaces the whole content of `p`. */
    method Write(p: Path, bytes: Bytes) returns (ok: bool)
      modifies this
      ensures ok <==> p !in unwritable
      ensures files == if ok then old(files)[p := bytes] else old(files)
    {
      ok := p !in unwritable;
      if ok {
        files := files[p := bytes];
      }
    }

    /** `fs::copy`: fails when the source is missing or the target cannot be written. */
    method Copy(from: Path, to: Path) returns (ok: bool)
      modifies this
      ensures ok <==> from in old(files) && to !in unwritable
      ensures files == if ok then old(files)[to := old(files)[from]] else old(files)
    {
      ok := from in files && to !in unwritable;
      if ok {
        files := files[to := files[from]];
      }
    }

    /** `fs::remove_dir_all(root)`: every file under `root` disappears. */
    method RemoveTree(root: Path)
      modifies this
      ensures files == WithoutTree(old(files), root)
      ensures forall p :: p in files <==> p in old(files) && !Under(p, root)
      ensures forall p | p in files :: files[p] == old(files)[p]
    {
      files := WithoutTree(files, root);
    }
  }
}
