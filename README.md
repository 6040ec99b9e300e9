# server-wrapper: the artifact cache and fetch pipeline, in Dafny

server-wrapper supervises a game server. Before each start it prepares every
configured *destination* (a directory such as `mods`). Each destination has
*sources*: a URL, the newest GitHub Actions artifact of a repository, a Modrinth
project, or a local file. Every source is fetched through a per-destination cache
under `wrapper_cache/<destination>`. The cache stores one blob per source key, plus
`index.json`, which records for each key the *token* that identifies the content:
an HTTP ETag, an artifact id, a SHA-512 or SHA-1 hash. A source whose token still
equals the stored one is not fetched again. A fetched file may first go through a
*transform*: `Direct` passes it through, `Unzip` picks one entry of a zip archive by
include/exclude glob patterns. Once every source is loaded, the destination
directory is wiped and each cached blob is copied into it. When the server exits,
the supervisor waits so that starts are at least four minutes apart.

The project is split into one module per source file:

| module | file | models |
|---|---|---|
| `Common` | common.dfy | bytes, `Result`/`Option`, the crate's `Error`, paths and `source::File` |
| `Files` | files.dfy | the filesystem as a class over `map<Path, Bytes>` |
| `Tokens` | tokens.dfy | `cache::Token` and its irreflexive equality |
| `Cache` | cache.dfy | `src/cache.rs`: the index, `Loader`, `Entry`, `EntryUpdater`, `Reference` |
| `Transform` | transform.dfy | `src/transform.rs` (and its duplicate in `src/config/destinations.rs`) |
| `Destinations` | destinations.dfy | `src/config/destinations.rs`: `Pattern` syntax, defaults, the configuration shape |
| `Remote` | remote.dfy | the foreign services the providers call, as functions |
| `Pipeline` | pipeline.dfy | the decision flow all four providers share after they have a token |
| `Http`, `GitHub`, `Modrinth`, `PathSource` | http.dfy, github.dfy, modrinth.dfy, path_source.dfy | `src/source/*.rs` |
| `Sources` | sources.dfy | `src/source.rs`: dispatch and the `owner/repository` split |
| `Wrapper` | wrapper.dfy | `src/main.rs`: cache root, `prepare_destination`, `apply`, restart delay |

How each part of the program is represented:

- **Stateful parts become classes.** The filesystem is the class `Files.FileSystem`. The cache loader is the class `Cache.Loader`, whose `entries` map is updated in place.
- **Provider loads are methods.** Each provider's `load` is a method. Its `ensures` ties the result, and the new cache and file state, to a ghost predicate `LoadSpec`. That predicate states the source's steps, branch by branch.
- **Pure selectors are functions.** These are the ETag and URL helpers, the artifact and version choices, and the pattern rules. Their contracts are proved against independent reference definitions or inverse functions.
- **A Rust panic becomes an error value.** It is `Err(Panic(..))`. This covers `expect`, `unwrap`, and a string slice out of range.
- **Foreign code is passed in.** The HTTP, GitHub and Modrinth clients, SHA-1, the zip reader, glob matching, URL parsing and the JSON codec of the index are fields of `Remote.Env`.

## Model

| member | source | states |
|---|---|---|
| Tokens.TokenEqIsKnownEquality | src/cache.rs:177-186 | two tokens are equal exactly when they are the same variant with the same payload and not `Unknown` |
| Tokens.UnknownMatchesNothing | src/cache.rs:177-186 | `Unknown` is unequal to every token, itself included |
| Tokens.DifferentVariantsDiffer | src/cache.rs:180-183 | tokens of different variants never compare equal |
| Tokens.TokenEqPartialEquivalence | src/cache.rs:177-188 | token equality is symmetric and transitive, and reflexive exactly on known tokens |
| Cache.PathForSeparatesKeys | src/cache.rs:99-102 | `root/key` is different for different keys and always lies under the cache root |
| Cache.BlobsApartFromIndex | src/cache.rs:43 | a blob path coincides with `index.json` only for the key `index.json` |
| Cache.IndexToMap | src/cache.rs:43-46 | the map is keyed by each entry's own key, holds every listed key and only listed entries, and the final entry of the listing is the one kept for its key |
| Cache.LastListingWins | src/cache.rs:44-46 | for a key listed several times, the map keeps the entry listed last |
| Cache.ReopenRestoresEntries | src/cache.rs:44-46 | turning any listing of a keyed map back into a map restores that map exactly |
| Cache.MatchImpliesStored | src/cache.rs:119-131 | a match implies the key is stored with a known token, so the `unwrap` cannot fail |
| Cache.TryUpdate | src/cache.rs:119-131 | `Match` exactly when the tokens are equal, returning the stored reference; otherwise an updater carrying the entry and the candidate token |
| Cache.UnknownAlwaysMismatches | src/cache.rs:53-55 | an absent key, or one stored with `Unknown`, mismatches on every candidate |
| Cache.Upserted | src/cache.rs:73-86 | both arms of the `HashMap::entry` match leave the map keyed, with `key` mapped to the new entry and every other key unchanged |
| Cache.ExistingAfterUpdate | src/cache.rs:73-97 | after an update, `get_reference` for that key gives `root/key` under the new name, and every other key keeps its reference |
| Cache.RefetchMatches | src/cache.rs:66-89 | after an update with token `t`, an entry taken again matches any candidate equal to `t` and yields the new reference |
| Cache.CopyTo | src/cache.rs:143-149 | the copy succeeds exactly when the blob exists and `dir/name` is writable, and then that file holds the blob |
| Cache.CollectValues | src/cache.rs:61 | the loop lists every entry of the map exactly once |
| Cache.Loader.constructor | src/cache.rs:48 | the loader holds the given root and map |
| Cache.Loader.EntryFor | src/cache.rs:51-58 | the entry carries the key and its current token, and nothing changes |
| Cache.Loader.Update | src/cache.rs:66-89 | a write failure changes nothing; otherwise blob `root/key` holds the bytes, the entry is upserted, and the reference is `root/key` with the file name |
| Cache.Loader.Close | src/cache.rs:60-64 | every entry is written to `index.json`, none dropped; the write fails exactly when the index is not writable |
| Cache.Open | src/cache.rs:15-49 | a fresh loader whose map is the keyed read of `index.json`; it fails, with the `expect` panic, exactly when `index.json` exists and does not decode |
| Cache.OpenWithoutIndexIsEmpty | src/cache.rs:17-22 | with no `index.json` the cache opens empty |
| Cache.CloseThenOpen | src/cache.rs:37-64 | closing, then opening the same root, restores the entries, given a codec whose decode inverts encode |
| Files.FileSystem.Read | src/source/path.rs:14 | reading fails exactly for a missing file and otherwise returns its bytes |
| Files.FileSystem.Write | src/cache.rs:28 | a write succeeds exactly on a writable path and replaces that file only |
| Files.FileSystem.Copy | src/cache.rs:146 | a copy succeeds exactly when the source exists and the target is writable |
| Files.FileSystem.RemoveTree | src/main.rs:126-128 | every file under the directory disappears and nothing else changes |
| Transform.AllIncludesMatch | src/transform.rs:64-67 | true exactly when every include pattern matches the path |
| Transform.AnyExcludeMatches | src/transform.rs:65-68 | true exactly when some exclude pattern matches the path |
| Transform.MatchesAllMeaning | src/transform.rs:63-69 | a path passes exactly when all includes match and no exclude matches |
| Transform.NoIncludesOnlyExcludesDecide | src/transform.rs:64-68 | without include patterns only the excludes decide, and an empty pattern list accepts every path |
| Transform.IncludeExcludeExample | src/transform.rs:63-69 | under one jar include and one test-jar exclude, a test jar is rejected and a core jar accepted |
| Transform.FirstDeciding | src/transform.rs:46-55 | the index of the first matching entry that is a regular file or cannot be read, with every earlier entry neither; none exactly when there is none |
| Transform.DirectIsIdentity | src/transform.rs:17 | `Direct` returns the file unchanged |
| Transform.UnzipSelectsFirstMatchingFile | src/transform.rs:36-57 | an archive that does not open is an I/O error. A result file is a readable matching regular entry, under its entry name and with its bytes, and every earlier entry fails the patterns or is a readable directory. There is no result exactly when no entry decides. The result is an I/O error exactly when the archive does not open or the first deciding entry cannot be opened or read |
| Transform.Matching | src/transform.rs:40-44 | the filtered names are archive entries that pass `matches_all` |
| Transform.FilterThenFirstFile | src/transform.rs:40-57 | filtering the names and then scanning them in order gives the same file or error as `Unzipped`, which is defined by `FirstDeciding` |
| Transform.ApplyUnzip | src/transform.rs:30-61 | the loop, which fails on the first entry it cannot open or read and returns the first regular file, gives exactly the result specified by `UnzipSelectsFirstMatchingFile` |
| Transform.Apply | src/transform.rs:15-20 | dispatch on the transform equals the specified result for both variants |
| Destinations.DeserializeMeaning | src/config/destinations.rs:117-131 | a leading `!` makes an exclude of the rest; otherwise an include of the whole string; accepted exactly when that glob compiles |
| Destinations.DeserializeThenSerialize | src/config/destinations.rs:107-131 | every accepted string serialises back to itself |
| Destinations.SerializeThenDeserialize | src/config/destinations.rs:107-131 | every pattern deserialisation can produce survives serialise-then-deserialise |
| Destinations.OnlyOneBangStripped | src/config/destinations.rs:121-124 | `!!a` is an exclude of the glob `!a` |
| Destinations.NonCanonicalIncludeFlips | src/config/destinations.rs:107-124 | an include whose glob starts with `!` comes back as an exclude |
| Destinations.InvalidGlobRejected | src/config/destinations.rs:126-129 | a glob that does not compile is rejected |
| Destinations.OmittedTransformPassesThrough | src/config/destinations.rs:25-26 | a source set without `transform` gets `Direct`, which passes files through |
| Sources.DefaultInstallsFabricApiJar | src/config/destinations.rs:148-171 | the built-in configuration has the one destination `mods`, whose one source set fetches the pinned Fabric API URL through `Direct`, so any body it serves is installed unchanged as `fabric-api-0.29.3+1.16.jar`, the last segment of the URL |
| Pipeline.Commit | src/source/http.rs:23-27 | the transform's error is returned, a `None` becomes `MissingArtifact` with nothing written, and a file is stored through the updater |
| Http.FileName | src/source/http.rs:33-38 | the result has no `/`, is a suffix of the URL preceded by `/` when shorter, and is the whole URL when it has no `/` |
| Http.FileNameAfterLastSlash | src/source/http.rs:34-35 | for any prefix, the text after the last `/` is returned |
| Http.EtagToken | src/source/http.rs:6-12 | no header gives `Unknown`; a header shorter than two characters panics; otherwise the header is its first character, the `Etag` payload and its last character |
| Http.QuotedEtag | src/source/http.rs:10 | a quoted ETag yields exactly the text between the quotes |
| Http.NoEtagAlwaysDownloads | src/source/http.rs:9-16 | without an ETag the token is `Unknown` and the cache always mismatches |
| Http.Load | src/source/http.rs:3-31 | a request or ETag failure changes nothing; a match returns the cached reference without reading the body; a mismatch stores the transformed body under the URL's last segment |
| GitHub.LatestIndex | src/source/github.rs:37-39 | the chosen artifact is eligible, has the greatest `updated_at`, and is later than every other eligible artifact with that time; none exactly when none is eligible |
| GitHub.LatestIndexUnique | src/source/github.rs:37-39 | any index with those three properties is the one chosen |
| GitHub.TieGoesToLater | src/source/github.rs:39 | of two eligible artifacts updated at once, the later in the listing is chosen |
| GitHub.LatestArtifact | src/source/github.rs:33-47 | the id, download URL and name of an eligible artifact with the greatest `updated_at`; none exactly when none is eligible |
| GitHub.Load | src/source/github.rs:5-31 | a listing failure changes nothing; no artifact falls back to the cached reference or `MissingArtifact`; otherwise `ArtifactId` decides, and a mismatch stores `<name>.zip` |
| Modrinth.VersionsUrlQuery | src/source/modrinth.rs:86-95 | the listing URL carries a query exactly when a game version is given |
| Modrinth.VersionsUrlSeparatesProjects | src/source/modrinth.rs:94 | under the same game-version filter, or none, different projects are listed from different URLs |
| Modrinth.PrimaryIndex | src/source/modrinth.rs:50 | the first file flagged primary, none exactly when no file is |
| Modrinth.Insert | src/source/modrinth.rs:48 | inserting one version adds exactly one element |
| Modrinth.InsertPermutes | src/source/modrinth.rs:48 | insertion adds the version and loses none |
| Modrinth.InsertSorted | src/source/modrinth.rs:48 | insertion into a date-sorted list keeps it sorted |
| Modrinth.SortByDate | src/source/modrinth.rs:48 | the result is sorted by publication date and a permutation of the listing |
| Modrinth.FirstQualifying | src/source/modrinth.rs:49-61 | the first version with a hashed primary file, and none exactly when no version has one |
| Modrinth.Earliest | src/source/modrinth.rs:48-64 | a qualifying version from the listing, none exactly when none qualifies |
| Modrinth.EarliestMeaning | src/source/modrinth.rs:48-64 | that version has the earliest date among qualifying versions and is listed before every other qualifying version of the same date |
| Modrinth.FirstQualifyingAfterInsert | src/source/modrinth.rs:48-57 | inserting a version changes the first qualifying version only when the new one qualifies and is strictly older |
| Modrinth.SortedScanPicksEarliest | src/source/modrinth.rs:48-57 | the stable sort followed by the scan picks exactly `Earliest` |
| Modrinth.Resolved | src/source/modrinth.rs:42-65 | none exactly when no version qualifies; otherwise the hash, URL and file name of `Earliest`'s primary file |
| Modrinth.UnhashedVersionSkipped | src/source/modrinth.rs:51-60 | an older version whose primary file has no hash is skipped for a newer hashed one |
| Modrinth.ResolveVersion | src/source/modrinth.rs:42-65 | the sort-then-scan loop returns `Resolved` |
| Modrinth.Load | src/source/modrinth.rs:11-40 | a listing failure changes nothing; no version falls back; otherwise `Sha512` decides, and a mismatch stores `<filename>.zip` |
| PathSource.PathFileName | src/source/path.rs:25-29 | the file name is a component of the path, never `.` or `..` |
| PathSource.FileNameOfJoin | src/source/path.rs:25-29 | a path ending in an ordinary name has that name |
| PathSource.TrailingDotIgnored | src/source/path.rs:25-29 | a trailing `.` component does not change the name |
| PathSource.ParentHasNoFileName | src/source/path.rs:25-29 | a path ending in `..` has no name, so the `unwrap` panics |
| PathSource.PayloadOfJoin | src/source/path.rs:25-33 | a file read from `dir/name` is handed to the transform under `name` with exactly the bytes read; one read from `dir/..` panics |
| PathSource.UnchangedFileMatches | src/source/path.rs:16-23 | a file whose contents hash to the stored token is not fetched, and its cached reference is returned |
| PathSource.Load | src/source/path.rs:11-42 | a read failure is returned before the cache is consulted; otherwise the `Sha1` of the contents decides |
| Sources.Split | src/source.rs:25 | the parts contain no `/`, number one more than the slashes, and join back to the text |
| Sources.SplitAtFirstSlash | src/source.rs:25 | splitting `a/b`, with no slash in `a`, gives `a` followed by the parts of `b` |
| Sources.SplitWithoutSlash | src/source.rs:25 | a text without `/` is one part |
| Sources.SplitJoinParts | src/source.rs:25 | joining slash-free parts and splitting again gives the parts back |
| Sources.GitHubTarget | src/source.rs:25-35 | accepted exactly when the text has one `/`, as owner and repository around it, with the filter fields copied; otherwise `MalformedGitHubReference` of the text |
| Sources.OwnerRepositoryAccepted | src/source.rs:25-33 | every slash-free owner and repository is accepted as itself |
| Sources.MalformedReferences | src/source.rs:25-35 | `a`, `a/b/c` and `a/b/` are malformed |
| Sources.DecidedRecords | src/cache.rs:119-160 | after a token decision, a success is the cache's record for the key and a failure leaves the index unchanged |
| Sources.LoadRecords | src/source.rs:19-43 | whichever provider runs, a successful load returns the reference the cache now records for the key, and a failed one leaves the index unchanged |
| Sources.Load | src/source.rs:13-44 | each variant runs exactly its own provider; a malformed GitHub reference changes nothing |
| Wrapper.CacheRootsDisjoint | src/main.rs:93 | each destination has its own cache directory and no file lies in two |
| Wrapper.RestartDelay | src/main.rs:62-72 | the next start is at least four minutes after the previous one, the delay is the least that achieves it, and it is zero exactly after a run of four minutes or more |
| Wrapper.DelaySeconds | src/main.rs:66-67 | the announced seconds are the delay rounded down, at most 240 |
| Wrapper.Successes | src/main.rs:101-102 | the kept references are successful outcomes, each successful outcome is kept, and there are at most as many as outcomes |
| Wrapper.LoadedAppend | src/main.rs:98-109 | the per-load bookkeeping of consecutive source sets concatenates |
| Wrapper.SuccessesAppend | src/main.rs:101-102 | the successes of consecutive runs concatenate in order |
| Wrapper.LoadSet | src/main.rs:99-108 | the loads run in order, load `k` taking its entry from the state load `k - 1` left and doing what that source's `load` does from there. The run covers every source unless one panics, in which case it stops right after it. The references returned are the successes in order, and the other failures are excluded |
| Wrapper.LoadedNextSet | src/main.rs:98-109 | a source set loaded without a panic extends the bookkeeping, and its successes follow those of the sets before it |
| Wrapper.LoadNextSet | src/main.rs:98-109 | one source set is loaded, continuing the chain of loads from the state the earlier sets left; without a panic its successes are appended in order |
| Wrapper.LoadSets | src/main.rs:98-109 | the same chain of loads across all source sets, each set continuing from the state the previous one left |
| Wrapper.PrepareDestination | src/main.rs:92-117 | an undecodable index is the read's panic, and nothing changes. Otherwise the chain of loads starts from the map read from `index.json` and the files on disk, and each load does what its source's `load` does. On success every load ran with no panic, every success is at `wrapper_cache/<name>/<key>`, the prepared files are the successes in order, and `index.json` holds a listing of the final map with nothing else changed. An error is either the panic that ended the loads, or a failed close after all loads |
| Wrapper.CopyablePrefix | src/main.rs:132-134 | if every copy succeeds, so do the copies of any prefix |
| Wrapper.Apply | src/main.rs:125-137 | the directory is wiped and the references copied in order; success exactly when every copy can succeed; a failure stops right before the first copy that fails, leaving the files of the copies before it |
| Wrapper.PlacedOutsideRoot | src/main.rs:132-134 | copying never touches a file outside the destination |
| Wrapper.CopyableWhenBlobsOutside | src/main.rs:125-134 | with the blobs present and outside the destination, apply succeeds exactly when every target is writable |
| Wrapper.PlacedNames | src/main.rs:125-134 | after copying, a path under the destination holds a file exactly when it is some reference's name |
| Wrapper.PlacedLastWins | src/main.rs:132-134 | the file under a name is the blob of the last reference with that name |
| Wrapper.PlacedContents | src/main.rs:125-134 | after apply a path under the destination holds a file exactly when it is some reference's name, and that file is the blob of the last reference with that name |
| Wrapper.ApplyIdempotent | src/main.rs:125-137 | applying the same prepared destination twice leaves the files of applying it once |

## Left out

- Cache.Loader.Close: the order of the entries in `index.json` is unspecified beyond "each entry exactly once", because it is the iteration order of a `HashMap`.
- Transform.ApplyUnzip: entries are visited in archive order. `file_names()` actually iterates the zip crate's name map, and duplicate entry names are not modelled. A failing `by_name` and a failing `read_to_end` are one condition, an entry whose contents cannot be read. Both give the same I/O error.
- Wrapper.PrepareDestination: the source sets and their sources are sequences in a given order, standing for the order the `HashMap`s yield. A key listed in two source sets shares one cache entry, as in the program.
- Wrapper.Apply: directories are implicit. `create_dir_all`, the `exists` checks and directory-level failures are not modelled. The wipe removes every file under the destination path.
- Cache.Open: creating the cache directory, and its failure, is not modelled. A missing index reads as empty, and a failed read of a present index is not modelled.
- Paths are sequences of components, and `join` appends one component. A key or file name containing `/`, or an absolute one (which `Path::join` would treat specially), is not modelled.
- **Foreign code is abstract.** HTTP, the GitHub and Modrinth clients, JSON and TOML, SHA-1, glob compilation and matching, URL parsing and zip decompression are functions supplied in `Remote.Env` or as parameters. Their internals, and what `spawn_blocking` adds, are not modelled.
- **Panics are error values.** A Rust panic is modelled as `Err(Panic(..))`. `prepare_destination` stops at a provider's panic, because the program's task dies there. The panic of `prepare_destinations` on any failed destination, and of `main` on a failed `apply`, are outside the model.
- **Token variants are added.** `Token::Sha1` and `Token::Sha512` are used by `src/source/path.rs` and `src/source/modrinth.rs` but are not declared in the shown `src/cache.rs`. They are added with the same rule as `Etag` and `ArtifactId`: equal within the variant when the payloads are equal.
- **`get_existing` is read as `get_reference`.** `get_existing`, called by the GitHub and Modrinth providers, is not defined in the shown `src/cache.rs`. It is modelled as `get_reference` for the entry's key.
- **GitHub.Load ignores the filter.** `src/source.rs` builds a `Filter` and passes it, but the shown `src/source/github.rs` takes none and filters only on expiry and download URL. The model accepts the filter and ignores it. Pagination is not handled, as in the source: the listing is what one request returns.
- **Source shape.** The `Source` enum follows the shape `src/source.rs` matches on (with `Modrinth`, `workflow` and `branch`), not the older one in `src/config/destinations.rs`.
- **The duplicate transform is modelled once.** The `Transform` duplicated in `src/config/destinations.rs` behaves the same as `src/transform.rs`, so the model has one copy.
- **Pattern parsing.** Pattern deserialisation borrows a `&str`, so a configuration string with escapes fails to parse. That failure is not modelled.
- **Timestamps.** Artifact and version dates are integers, with their parsing left out. `usize` ids are unbounded naturals.
- **Restart delay.** The delay is in nanoseconds. The sleep itself, the server run, the supervisor loop, configuration loading, status webhooks, the process executor and logging are not modelled.
- **Behaviour the code does not have.** There is no eviction of stale cache entries and no atomic replacement of `index.json`: it is written with a plain write. A destination is not synchronised file by file: `apply` wipes the directory and copies everything again. The model follows the code here.
- **Quirks kept as they are.** The Modrinth provider names the fetched file `<filename>.zip`, like the GitHub one, and under `Direct` that is the installed name. A weak ETag `W/"x"` becomes the token `/"x`. The Modrinth provider sorts versions by publication date in ascending order and takes the first one with a hashed primary file, so it installs the *earliest* qualifying version, although the variable holding it is called `latest_version`. All three are modelled as written.
