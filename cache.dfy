/** src/cache.rs: the per-destination change-detection cache. A `Loader`
    owns a directory `root`; `root/index.json` lists one `IndexEntry` per key
    and the blob for key `k` lives at `root/k`. */
module Cache {
  import opened Common
  import opened Tokens
  import opened Files

  datatype IndexEntry = IndexEntry(key: string, token: Token, fileName: string)

  /** `cache::Reference`: where a blob is and the name it is copied under. */
  datatype Reference = Reference(path: Path, name: string)

  /** `cache::Entry` without its borrow of the loader: the key and the token
      the loader held for it when the entry was taken. */
  datatype Entry = Entry(key: string, current: Token)

  /** `cache::EntryUpdater`: the proof of a mismatch plus the candidate token. */
  datatype EntryUpdater = EntryUpdater(entry: Entry, token: Token)

  datatype UpdateResult = Mismatch(updater: EntryUpdater) | Match(reference: Reference)

  /** serde_json on `Index`, seen only through its two directions. */
  datatype IndexCodec = IndexCodec(encode: seq<IndexEntry> -> Bytes, decode: Bytes -> Option<seq<IndexEntry>>)

  /** The in-memory map and the filesystem, taken together. */
  datatype State = State(entries: map<string, IndexEntry>, files: map<Path, Bytes>)

  const IndexFileName: string := "index.json"

  /** The map built in `Loader::open` is keyed by each entry's own key. */
  ghost predicate Keyed(entries: map<string, IndexEntry>)
  {
    forall k | k in entries :: entries[k].key == k
  }

  ghost predicate RoundTrips(codec: IndexCodec)
  {
    forall s :: codec.decode(codec.encode(s)) == Some(s)
  }

  /** `s` holds every value of `entries` exactly once, in some order: what
      `entries.into_values().collect()` produces. */
  ghost predicate Lists(s: seq<IndexEntry>, entries: map<string, IndexEntry>)
  {
    && |s| == |entries|
    && (forall i | 0 <= i < |s| :: s[i].key in entries && entries[s[i].key] == s[i])
    && (forall i, j | 0 <= i < j < |s| :: s[i].key != s[j].key)
    && (forall k | k in entries :: entries[k] in s)
  }

  /** `Loader::path_for`. */
  function PathFor(root: Path, key: string): Path
  {
    Join(root, key)
  }

  function IndexPath(root: Path): Path
  {
    Join(root, IndexFileName)
  }

  /** Blobs of different keys never share a path, and all live under the root. */
  lemma PathForSeparatesKeys(root: Path, a: string, b: string)
    ensures PathFor(root, a) == PathFor(root, b) <==> a == b
    ensures Under(PathFor(root, a), root)
  {
    if PathFor(root, a) == PathFor(root, b) {
      assert PathFor(root, a).segments[|root.segments|] == a;
    }
  }

  /** The blob of every key other than `index.json` lies apart from the index;
      a source keyed `index.json` shares its path with the index itself. */
  lemma BlobsApartFromIndex(root: Path, key: string)
    ensures PathFor(root, key) == IndexPath(root) <==> key == IndexFileName
  {
    PathForSeparatesKeys(root, key, IndexFileName);
  }

  /** `read_cache_index`: a missing index is empty; an index that does not
      parse makes `expect("malformed cache index")` panic. */
  function ReadCacheIndex(files: map<Path, Bytes>, path: Path, codec: IndexCodec): Result<seq<IndexEntry>>
  {
    if path in files then
      match codec.decode(files[path])
      case Some(s) => Ok(s)
      case None => Err(Panic("malformed cache index"))
    else
      Ok([])
  }

  /** `.map(|entry| (entry.key.clone(), entry)).collect()`: a later entry
      with the same key replaces an earlier one. */
  function IndexToMap(s: seq<IndexEntry>): (m: map<string, IndexEntry>)
    ensures Keyed(m)
    ensures forall i | 0 <= i < |s| :: s[i].key in m
    ensures forall k | k in m :: m[k] in s
    ensures |s| > 0 ==> m[s[|s| - 1].key] == s[|s| - 1]
    decreases |s|
  {
    if s == [] then map[]
    else
      var last := s[|s| - 1];
      var m' := IndexToMap(s[..|s| - 1]);
      assert forall i | 0 <= i < |s| - 1 :: s[i] == s[..|s| - 1][i];
      m'[last.key := last]
  }

  /** Of several entries listed under one key, the map keeps the last. */
  lemma {:induction false} LastListingWins(s: seq<IndexEntry>, i: nat)
    requires i < |s| && forall j | i < j < |s| :: s[j].key != s[i].key
    ensures IndexToMap(s)[s[i].key] == s[i]
    decreases |s|
  {
    if i < |s| - 1 {
      var init := s[..|s| - 1];
      assert init[i] == s[i];
      assert forall j | i < j < |init| :: init[j] == s[j];
      LastListingWins(init, i);
    }
  }

  /** Reopening a cache restores the map that was closed: `IndexToMap`
      inverts the listing that `close` writes. */
  lemma {:induction false} ReopenRestoresEntries(s: seq<IndexEntry>, entries: map<string, IndexEntry>)
    requires Keyed(entries) && Lists(s, entries)
    ensures IndexToMap(s) == entries
  {
    var m := IndexToMap(s);
    forall k | k in entries ensures k in m && m[k] == entries[k] {
      var i :| 0 <= i < |s| && s[i] == entries[k];
      assert s[i].key == k;
      assert m[k] in s;
      var j :| 0 <= j < |s| && s[j] == m[k];
      assert s[j].key == k;
    }
    forall k | k in m ensures k in entries {
      var j :| 0 <= j < |s| && s[j] == m[k];
    }
  }

  /** The token `Loader::entry` captures for `key`. */
  function CurrentToken(entries: map<string, IndexEntry>, key: string): Token
  {
    if key in entries then entries[key].token else Unknown
  }

  /** `Loader::get_reference` (also what the providers call `get_existing`). */
  function GetReference(root: Path, entries: map<string, IndexEntry>, key: string): Option<Reference>
  {
    if key in entries then Some(Reference(PathFor(root, key), entries[key].fileName)) else None
  }

  /** A match is only possible for a key that is in the map, so the `unwrap`
      in `try_update` never panics. */
  lemma MatchImpliesStored(entries: map<string, IndexEntry>, key: string, candidate: Token)
    requires TokenEq(CurrentToken(entries, key), candidate)
    ensures key in entries && !entries[key].token.Unknown?
  {
  }

  /** `Entry::try_update`: decides, with no I/O, whether the stored blob is
      still current. `e` must be the entry the loader handed out for the
      current map, which the borrow of the loader guarantees in the source. */
  function TryUpdate(root: Path, entries: map<string, IndexEntry>, e: Entry, candidate: Token): (r: UpdateResult)
    requires e.current == CurrentToken(entries, e.key)
    ensures r.Match? <==> TokenEq(e.current, candidate)
    ensures r.Match? ==> e.key in entries && r.reference == Reference(PathFor(root, e.key), entries[e.key].fileName)
    ensures r.Mismatch? ==> r.updater == EntryUpdater(e, candidate)
  {
    if !TokenEq(e.current, candidate) then
      Mismatch(EntryUpdater(e, candidate))
    else
      Match(GetReference(root, entries, e.key).value)
  }

  /** A key that is absent, or stored with an `Unknown` token, mismatches
      whatever token is offered. */
  lemma UnknownAlwaysMismatches(root: Path, entries: map<string, IndexEntry>, key: string, candidate: Token)
    requires key !in entries || entries[key].token.Unknown?
    ensures TryUpdate(root, entries, Entry(key, CurrentToken(entries, key)), candidate).Mismatch?
  {
  }

  /** The map after `update_entry`: the occupied arm rewrites token and file
      name in place, the vacant arm inserts a fresh entry. */
  function Upserted(entries: map<string, IndexEntry>, key: string, token: Token, name: string): (r: map<string, IndexEntry>)
    requires Keyed(entries)
    ensures Keyed(r)
    ensures r == entries[key := IndexEntry(key, token, name)]
  {
    if key in entries then
      entries[key := entries[key].(token := token, fileName := name)]
    else
      entries[key := IndexEntry(key, token, name)]
  }

  /** After an update, `get_reference` serves the new blob under the new name
      for that key, and every other key keeps the reference it had. */
  lemma ExistingAfterUpdate(root: Path, entries: map<string, IndexEntry>, key: string, token: Token, name: string, other: string)
    requires Keyed(entries)
    ensures GetReference(root, Upserted(entries, key, token, name), key) == Some(Reference(PathFor(root, key), name))
    ensures other != key ==> GetReference(root, Upserted(entries, key, token, name), other) == GetReference(root, entries, other)
  {
  }

  /** What `EntryUpdater::update` leaves behind. The blob is written first, so
      a failed write leaves the map as it was. */
  ghost predicate Stored(root: Path, unwritable: set<Path>, s0: State, key: string, token: Token, f: File, s1: State, r: Result<Reference>)
    requires Keyed(s0.entries)
  {
    if PathFor(root, key) in unwritable then
      r == Err(Io) && s1 == s0
    else
      && r == Ok(Reference(PathFor(root, key), f.name))
      && s1.entries == Upserted(s0.entries, key, token, f.name)
      && s1.files == s0.files[PathFor(root, key) := f.bytes]
  }

  /** Once a key has been stored under a known token, asking again with an
      equal token is a match that hands back the blob just written: a second
      run against an unchanged source does no fetch. */
  lemma {:induction false} RefetchMatches(root: Path, entries: map<string, IndexEntry>, key: string, token: Token, name: string, again: Token)
    requires Keyed(entries)
    requires TokenEq(token, again)
    ensures var after := Upserted(entries, key, token, name);
      TryUpdate(root, after, Entry(key, CurrentToken(after, key)), again) == Match(Reference(PathFor(root, key), name))
  {
    var after := Upserted(entries, key, token, name);
    assert CurrentToken(after, key) == token;
  }

  /** `Reference::copy_to`: copy the blob to `dir/name`. */
  method CopyTo(fs: FileSystem, reference: Reference, dir: Path) returns (r: Result<()>)
    modifies fs
    ensures r.Ok? <==> reference.path in old(fs.files) && Join(dir, reference.name) !in fs.unwritable
    ensures fs.files == if r.Ok? then old(fs.files)[Join(dir, reference.name) := old(fs.files)[reference.path]] else old(fs.files)
  {
    var ok := fs.Copy(reference.path, Join(dir, reference.name));
    r := if ok then Ok(()) else Err(Io);
  }

  /** `entries.into_values().collect()`: every value once, in the map's order. */
  method CollectValues(entries: map<string, IndexEntry>) returns (s: seq<IndexEntry>)
    requires Keyed(entries)
    ensures Lists(s, entries)
  {
    var rest := entries;
    s := [];
    while rest != map[]
      invariant rest.Keys <= entries.Keys
      invariant forall k | k in rest :: rest[k] == entries[k]
      invariant |s| + |rest| == |entries|
      invariant forall i | 0 <= i < |s| :: s[i].key in entries && entries[s[i].key] == s[i] && s[i].key !in rest
      invariant forall i, j | 0 <= i < j < |s| :: s[i].key != s[j].key
      invariant forall k | k in entries && k !in rest :: entries[k] in s
      decreases |rest|
    {
      var k :| k in rest;
      s := s + [rest[k]];
      rest := rest - {k};
    }
  }

  class Loader {
    const root: Path
    const fs: FileSystem
    const codec: IndexCodec
    var entries: map<string, IndexEntry>

    ghost predicate Valid()
      reads this
    {
      Keyed(entries)
    }

    ghost function Snapshot(): State
      reads this, fs
    {
      State(entries, fs.files)
    }

    constructor (root: Path, fs: FileSystem, codec: IndexCodec, entries: map<string, IndexEntry>)
      requires Keyed(entries)
      ensures Valid()
      ensures this.root == root && this.fs == fs && this.codec == codec && this.entries == entries
    {
      this.root := root;
      this.fs := fs;
      this.codec := codec;
      this.entries := entries;
    }

    /** `Loader::entry`: looks the key up without changing anything. */
    method EntryFor(key: string) returns (e: Entry)
      ensures e.key == key
      ensures key in entries ==> e.current == entries[key].token
      ensures key !in entries ==> e.current == Unknown
    {
      e := Entry(key, CurrentToken(entries, key));
    }

    /** `EntryUpdater::update` through `Loader::update_entry`. */
    method Update(u: EntryUpdater, file: File) returns (r: Result<Reference>)
      requires Valid()
      modifies this, fs
      ensures Valid()
      ensures Stored(root, fs.unwritable, old(Snapshot()), u.entry.key, u.token, file, Snapshot(), r)
    {
      var path := PathFor(root, u.entry.key);
      var ok := fs.Write(path, file.bytes);
      if !ok {
        return Err(Io);
      }
      entries := Upserted(entries, u.entry.key, u.token, file.name);
      r := Ok(Reference(path, file.name));
    }

    /** `Loader::close`: writes every entry, none dropped, to `index.json`. */
    method Close() returns (r: Result<()>)
      requires Valid()
      modifies fs
      ensures r.Ok? <==> IndexPath(root) !in fs.unwritable
      ensures r.Err? ==> r.error == Io && fs.files == old(fs.files)
      ensures r.Ok? ==> exists s :: Lists(s, entries) && fs.files == old(fs.files)[IndexPath(root) := codec.encode(s)]
    {
      var s := CollectValues(entries);
      var ok := fs.Write(IndexPath(root), codec.encode(s));
      r := if ok then Ok(()) else Err(Io);
    }
  }

  /** `Loader::open`. Creating the root directory is implicit here. */
  method Open(fs: FileSystem, root: Path, codec: IndexCodec) returns (r: Result<Loader>)
    ensures r.Err? <==> ReadCacheIndex(fs.files, IndexPath(root), codec).Err?
    ensures r.Err? <==> IndexPath(root) in fs.files && codec.decode(fs.files[IndexPath(root)]).None?
    ensures r.Err? ==> r.error == ReadCacheIndex(fs.files, IndexPath(root), codec).error && r.error.Panic?
    ensures r.Ok? ==> fresh(r.value) && r.value.Valid()
    ensures r.Ok? ==> r.value.root == root && r.value.fs == fs && r.value.codec == codec
    ensures r.Ok? ==> r.value.entries == IndexToMap(ReadCacheIndex(fs.files, IndexPath(root), codec).value)
  {
    var index := ReadCacheIndex(fs.files, IndexPath(root), codec);
    if index.Err? {
      return Err(index.error);
    }
    var loader := new Loader(root, fs, codec, IndexToMap(index.value));
    r := Ok(loader);
  }

  /** With no `index.json` the cache starts empty. */
  lemma OpenWithoutIndexIsEmpty(files: map<Path, Bytes>, root: Path, codec: IndexCodec)
    requires IndexPath(root) !in files
    ensures ReadCacheIndex(files, IndexPath(root), codec) == Ok([])
    ensures IndexToMap([]) == map[]
  {
  }

  /** `close` followed by `open` on the same root gives back the same map,
      provided the serialiser reads back what it wrote. */
  lemma CloseThenOpen(files: map<Path, Bytes>, root: Path, codec: IndexCodec, s: seq<IndexEntry>, entries: map<string, IndexEntry>)
    requires RoundTrips(codec) && Keyed(entries) && Lists(s, entries)
    ensures var files' := files[IndexPath(root) := codec.encode(s)];
      ReadCacheIndex(files', IndexPath(root), codec) == Ok(s) && IndexToMap(s) == entries
  {
    assert codec.decode(codec.encode(s)) == Some(s);
    ReopenRestoresEntries(s, entries);
  }
}
