/** src/main.rs: preparing a destination (loading every source through the
    destination's cache), applying it to disk, and the restart back-off. */
module Wrapper {
  import opened Common
  import opened Files
  import opened Cache
  import opened Remote
  import opened Destinations
  import Sources

  const CacheRootName: string := "wrapper_cache"

  /** `Path::new(CACHE_ROOT).join(destination_name)`. */
  function CacheRoot(destination: string): Path
  {
    Join(Path([CacheRootName]), destination)
  }

  /** Every destination has its own cache directory, and no file lies in two
      of them. */
  lemma CacheRootsDisjoint(a: string, b: string, p: Path)
    ensures CacheRoot(a) == CacheRoot(b) <==> a == b
    ensures Under(p, CacheRoot(a)) && Under(p, CacheRoot(b)) ==> a == b
  {
    assert CacheRoot(a).segments[1] == a && CacheRoot(b).segments[1] == b;
    if Under(p, CacheRoot(a)) && Under(p, CacheRoot(b)) {
      assert p.segments[1] == CacheRoot(a).segments[1] == a;
      assert p.segments[1] == CacheRoot(b).segments[1] == b;
    }
  }

  /** `MIN_RESTART_INTERVAL`, four minutes, in nanoseconds. */
  const MinRestartInterval: nat := 4 * 60 * 1_000_000_000

  /** How long the loop sleeps after a server run that lasted `elapsed`
      nanoseconds: the least delay that puts the next start at least
      `MIN_RESTART_INTERVAL` after the previous one. */
  function RestartDelay(elapsed: nat): (delay: nat)
    ensures elapsed + delay >= MinRestartInterval
    ensures delay > 0 ==> elapsed + (delay - 1) < MinRestartInterval
    ensures elapsed >= MinRestartInterval <==> delay == 0
  {
    if elapsed < MinRestartInterval then MinRestartInterval - elapsed else 0
  }

  /** `delay.as_secs()` in the status message: whole seconds, rounded down. */
  function DelaySeconds(elapsed: nat): (secs: nat)
    ensures secs * 1_000_000_000 <= RestartDelay(elapsed) < (secs + 1) * 1_000_000_000
    ensures secs <= 240
  {
    RestartDelay(elapsed) / 1_000_000_000
  }

  /** One load that `prepare_destination` performs: a key, its source, and
      the transform of the source set it belongs to. */
  datatype Job = Job(key: string, source: Source, transform: Transform.Transform)

  /** The loads of one source set, in order. */
  function JobsOf(sourceSet: SourceSet): seq<Job>
  {
    seq(|sourceSet.sources|, k requires 0 <= k < |sourceSet.sources| =>
      Job(sourceSet.sources[k].0, sourceSet.sources[k].1, sourceSet.transform))
  }

  /** The loads of all source sets of a destination, in the order they run. */
  function AllJobs(sets: seq<(string, SourceSet)>): seq<Job>
  {
    if sets == [] then [] else AllJobs(sets[..|sets| - 1]) + JobsOf(sets[|sets| - 1].1)
  }

  /** The loads of the first source sets come first among all loads. */
  lemma {:induction false} AllJobsPrefix(sets: seq<(string, SourceSet)>, i: nat)
    requires i <= |sets|
    ensures AllJobs(sets[..i]) <= AllJobs(sets)
    decreases |sets|
  {
    if i < |sets| {
      var init := sets[..|sets| - 1];
      assert init[..i] == sets[..i];
      AllJobsPrefix(init, i);
    } else {
      assert sets[..i] == sets;
    }
  }

  /** The references of the successful loads, in order; failures are excluded. */
  function Successes(outcomes: seq<Result<Reference>>): (refs: seq<Reference>)
    ensures |refs| <= |outcomes|
    ensures forall k | 0 <= k < |outcomes| && outcomes[k].Ok? :: outcomes[k].value in refs
    ensures forall x | x in refs :: Ok(x) in outcomes
  {
    if outcomes == [] then []
    else
      var init := outcomes[..|outcomes| - 1];
      var last := outcomes[|outcomes| - 1];
      assert outcomes == init + [last];
      Successes(init) + if last.Ok? then [last.value] else []
  }

  /** `PreparedDestination`. */
  datatype Prepared = Prepared(root: Path, cacheFiles: seq<Reference>)

  predicate Panicked(outcome: Result<Reference>)
  {
    outcome.Err? && outcome.error.Panic?
  }

  /** What a run of loads left behind: one outcome per load, no panic among
      them, and each success a blob in the cache directory under its key. */
  ghost predicate Loaded(root: Path, jobs: seq<Job>, outcomes: seq<Result<Reference>>)
  {
    && |outcomes| == |jobs|
    && (forall k | 0 <= k < |outcomes| :: !Panicked(outcomes[k]))
    && (forall k | 0 <= k < |outcomes| && outcomes[k].Ok? :: outcomes[k].value.path == PathFor(root, jobs[k].key))
  }

  lemma LoadedAppend(root: Path, j1: seq<Job>, o1: seq<Result<Reference>>, j2: seq<Job>, o2: seq<Result<Reference>>)
    requires Loaded(root, j1, o1) && Loaded(root, j2, o2)
    ensures Loaded(root, j1 + j2, o1 + o2)
  {
    assert forall k | |o1| <= k < |o1| + |o2| :: (o1 + o2)[k] == o2[k - |o1|] && (j1 + j2)[k] == j2[k - |j1|];
  }

  /** Successes of consecutive runs are the successes of each, concatenated. */
  lemma {:induction false} SuccessesAppend(o1: seq<Result<Reference>>, o2: seq<Result<Reference>>)
    ensures Successes(o1 + o2) == Successes(o1) + Successes(o2)
    decreases |o2|
  {
    if o2 != [] {
      var n := |o2| - 1;
      assert (o1 + o2)[..|o1 + o2| - 1] == o1 + o2[..n];
      SuccessesAppend(o1, o2[..n]);
    } else {
      assert o1 + o2 == o1;
    }
  }

  /** One load: `cache.entry(key)` taken from the state `s0`, then
      `source::load`, which leaves `s1` and returns `outcome`. */
  ghost predicate Step(env: Env, root: Path, unwritable: set<Path>, job: Job, s0: State, s1: State, outcome: Result<Reference>)
  {
    && Keyed(s0.entries)
    && exists fetched: bool ::
         Sources.LoadSpec(env, root, unwritable, s0, Entry(job.key, CurrentToken(s0.entries, job.key)),
                          job.source, job.transform, s1, outcome, fetched)
  }

  /** The first `|outcomes|` of `jobs` ran one after the other: load `k`
      went from `states[k]` to `states[k + 1]` and returned `outcomes[k]`. */
  ghost predicate Ran(env: Env, root: Path, unwritable: set<Path>, jobs: seq<Job>, states: seq<State>, outcomes: seq<Result<Reference>>)
  {
    && |outcomes| <= |jobs|
    && |states| == |outcomes| + 1
    && forall k | 0 <= k < |outcomes| :: Step(env, root, unwritable, jobs[k], states[k], states[k + 1], outcomes[k])
  }

  /** Running all of `j1` and then a prefix of `j2` is running a prefix of `j1 + j2`. */
  lemma RanAppend(env: Env, root: Path, unwritable: set<Path>,
                  j1: seq<Job>, s1: seq<State>, o1: seq<Result<Reference>>,
                  j2: seq<Job>, s2: seq<State>, o2: seq<Result<Reference>>)
    requires Ran(env, root, unwritable, j1, s1, o1) && |o1| == |j1|
    requires Ran(env, root, unwritable, j2, s2, o2) && s2[0] == s1[|o1|]
    ensures Ran(env, root, unwritable, j1 + j2, s1 + s2[1..], o1 + o2)
  {
    var jobs, states, outcomes := j1 + j2, s1 + s2[1..], o1 + o2;
    forall k | 0 <= k < |outcomes|
      ensures Step(env, root, unwritable, jobs[k], states[k], states[k + 1], outcomes[k])
    {
      if k < |o1| {
        assert jobs[k] == j1[k] && states[k] == s1[k] && states[k + 1] == s1[k + 1] && outcomes[k] == o1[k];
      } else {
        var m := k - |o1|;
        assert jobs[k] == j2[m] && states[k] == s2[m] && states[k + 1] == s2[m + 1] && outcomes[k] == o2[m];
      }
    }
  }

  /** Whether a run covers a prefix of some jobs depends only on that prefix. */
  lemma RanPrefix(env: Env, root: Path, unwritable: set<Path>, prefix: seq<Job>, jobs: seq<Job>, states: seq<State>, outcomes: seq<Result<Reference>>)
    requires prefix <= jobs && |outcomes| <= |prefix|
    ensures Ran(env, root, unwritable, prefix, states, outcomes) <==> Ran(env, root, unwritable, jobs, states, outcomes)
  {
    assert forall k | 0 <= k < |prefix| :: prefix[k] == jobs[k];
  }

  /** Splicing the run of source set `i` onto the run of the sets before it. */
  lemma ExtendRun(env: Env, root: Path, unwritable: set<Path>, sets: seq<(string, SourceSet)>, i: nat,
                  states: seq<State>, outcomes: seq<Result<Reference>>, more: seq<State>, moreOutcomes: seq<Result<Reference>>)
    requires i < |sets|
    requires Ran(env, root, unwritable, AllJobs(sets), states, outcomes) && |outcomes| == |AllJobs(sets[..i])|
    requires Ran(env, root, unwritable, JobsOf(sets[i].1), more, moreOutcomes) && more[0] == states[|outcomes|]
    ensures Ran(env, root, unwritable, AllJobs(sets), states + more[1..], outcomes + moreOutcomes)
    ensures (states + more[1..])[0] == states[0]
    ensures (states + more[1..])[|outcomes| + |moreOutcomes|] == more[|moreOutcomes|]
    ensures AllJobs(sets[..i + 1]) == AllJobs(sets[..i]) + JobsOf(sets[i].1)
  {
    assert sets[..i + 1][..i] == sets[..i];
    var done, next := AllJobs(sets[..i]), AllJobs(sets[..i + 1]);
    AllJobsPrefix(sets, i);
    AllJobsPrefix(sets, i + 1);
    RanPrefix(env, root, unwritable, done, AllJobs(sets), states, outcomes);
    RanAppend(env, root, unwritable, done, states, outcomes, JobsOf(sets[i].1), more, moreOutcomes);
    RanPrefix(env, root, unwritable, next, AllJobs(sets), states + more[1..], outcomes + moreOutcomes);
  }

  /** Outcomes free of panics followed by outcomes that panic only at the end. */
  lemma PanicAtEnd(o1: seq<Result<Reference>>, o2: seq<Result<Reference>>)
    requires forall k | 0 <= k < |o1| :: !Panicked(o1[k])
    requires |o2| > 0 && forall k | 0 <= k < |o2| - 1 :: !Panicked(o2[k])
    ensures (o1 + o2)[|o1 + o2| - 1] == o2[|o2| - 1]
    ensures forall k | 0 <= k < |o1 + o2| - 1 :: !Panicked((o1 + o2)[k])
  {
    assert forall k | 0 <= k < |o1 + o2| - 1 :: (o1 + o2)[k] == if k < |o1| then o1[k] else o2[k - |o1|];
  }

  /** One more load, taken from the state the run has reached, extends the run. */
  lemma RanOneMore(env: Env, root: Path, unwritable: set<Path>, jobs: seq<Job>, states: seq<State>, outcomes: seq<Result<Reference>>,
                   s1: State, outcome: Result<Reference>, fetched: bool)
    requires Ran(env, root, unwritable, jobs, states, outcomes) && |outcomes| < |jobs|
    requires Keyed(states[|outcomes|].entries)
    requires var s0, job := states[|outcomes|], jobs[|outcomes|];
      Sources.LoadSpec(env, root, unwritable, s0, Entry(job.key, CurrentToken(s0.entries, job.key)), job.source, job.transform, s1, outcome, fetched)
    ensures Ran(env, root, unwritable, jobs, states + [s1], outcomes + [outcome])
    ensures (states + [s1])[0] == states[0] && (states + [s1])[|outcomes| + 1] == s1
  {
    var n := |outcomes|;
    assert Step(env, root, unwritable, jobs[n], states[n], s1, outcome);
    assert forall k | 0 <= k <= n :: (states + [s1])[k] == states[k];
    assert forall k | 0 <= k < n :: (outcomes + [outcome])[k] == outcomes[k];
  }

  /** One more load without a panic extends the bookkeeping and the successes. */
  lemma LoadedOneMore(root: Path, jobs: seq<Job>, j: nat, outcomes: seq<Result<Reference>>, outcome: Result<Reference>)
    requires j < |jobs| && Loaded(root, jobs[..j], outcomes) && !Panicked(outcome)
    requires outcome.Ok? ==> outcome.value.path == PathFor(root, jobs[j].key)
    ensures Loaded(root, jobs[..j + 1], outcomes + [outcome])
    ensures Successes(outcomes + [outcome]) == Successes(outcomes) + if outcome.Ok? then [outcome.value] else []
  {
    assert jobs[..j + 1] == jobs[..j] + [jobs[j]];
    LoadedAppend(root, jobs[..j], outcomes, [jobs[j]], [outcome]);
    SuccessesAppend(outcomes, [outcome]);
    assert Successes([outcome]) == if outcome.Ok? then [outcome.value] else [] by {
      assert [outcome][..0] == [];
    }
  }

  /** The inner loop of `prepare_destination`: every source of one source set,
      through the cache, each entry taken from the state the previous load
      left. A failed load excludes its source; a panic ends the loop. */
  method LoadSet(env: Env, loader: Loader, sourceSet: SourceSet)
    returns (r: Result<seq<Reference>>, ghost states: seq<State>, ghost outcomes: seq<Result<Reference>>)
    requires loader.Valid()
    modifies loader, loader.fs
    ensures loader.Valid()
    ensures Ran(env, loader.root, loader.fs.unwritable, JobsOf(sourceSet), states, outcomes)
    ensures states[0] == old(loader.Snapshot()) && states[|outcomes|] == loader.Snapshot()
    ensures r.Ok? ==> Loaded(loader.root, JobsOf(sourceSet), outcomes) && r.value == Successes(outcomes)
    ensures r.Err? ==> && |outcomes| > 0 && outcomes[|outcomes| - 1] == Err(r.error) && r.error.Panic?
                       && forall k | 0 <= k < |outcomes| - 1 :: !Panicked(outcomes[k])
  {
    var jobs := JobsOf(sourceSet);
    var refs: seq<Reference> := [];
    states, outcomes := [loader.Snapshot()], [];
    var j := 0;
    while j < |sourceSet.sources|
      invariant 0 <= j <= |sourceSet.sources| && |outcomes| == j
      invariant loader.Valid()
      invariant Ran(env, loader.root, loader.fs.unwritable, jobs, states, outcomes)
      invariant states[0] == old(loader.Snapshot()) && states[j] == loader.Snapshot()
      invariant Loaded(loader.root, jobs[..j], outcomes) && refs == Successes(outcomes)
    {
      var (key, source) := sourceSet.sources[j];
      var e := loader.EntryFor(key);
      ghost var before := loader.Snapshot();
      var loaded, fetched := Sources.Load(env, loader, e, source, sourceSet.transform);
      Sources.LoadRecords(env, loader.root, loader.fs.unwritable, before, e, source, sourceSet.transform, loader.Snapshot(), loaded, fetched);
      RanOneMore(env, loader.root, loader.fs.unwritable, jobs, states, outcomes, loader.Snapshot(), loaded, fetched);
      states, outcomes := states + [loader.Snapshot()], outcomes + [loaded];
      if Panicked(loaded) {
        return Err(loaded.error), states, outcomes;
      }
      LoadedOneMore(loader.root, jobs, j, outcomes[..j], loaded);
      assert outcomes[..j] + [loaded] == outcomes;
      if loaded.Ok? {
        refs := refs + [loaded.value];
      }
      j := j + 1;
    }
    assert jobs[..j] == jobs;
    r := Ok(refs);
  }

  /** A source set loaded without a panic extends the bookkeeping and the
      successes of the sets before it. */
  lemma LoadedNextSet(root: Path, sets: seq<(string, SourceSet)>, i: nat,
                      outcomes: seq<Result<Reference>>, more: seq<Result<Reference>>)
    requires i < |sets| && AllJobs(sets[..i + 1]) == AllJobs(sets[..i]) + JobsOf(sets[i].1)
    requires Loaded(root, AllJobs(sets[..i]), outcomes) && Loaded(root, JobsOf(sets[i].1), more)
    ensures Loaded(root, AllJobs(sets[..i + 1]), outcomes + more)
    ensures Successes(outcomes + more) == Successes(outcomes) + Successes(more)
  {
    LoadedAppend(root, AllJobs(sets[..i]), outcomes, JobsOf(sets[i].1), more);
    SuccessesAppend(outcomes, more);
  }

  /** One turn of the outer loop of `prepare_destination`: source set `i`,
      continuing the run of the sets before it. */
  method LoadNextSet(env: Env, loader: Loader, sets: seq<(string, SourceSet)>, i: nat,
                     ghost states: seq<State>, ghost outcomes: seq<Result<Reference>>)
    returns (r: Result<seq<Reference>>, ghost states': seq<State>, ghost outcomes': seq<Result<Reference>>)
    requires loader.Valid() && i < |sets|
    requires Ran(env, loader.root, loader.fs.unwritable, AllJobs(sets), states, outcomes)
    requires Loaded(loader.root, AllJobs(sets[..i]), outcomes) && states[|outcomes|] == loader.Snapshot()
    modifies loader, loader.fs
    ensures loader.Valid()
    ensures Ran(env, loader.root, loader.fs.unwritable, AllJobs(sets), states', outcomes')
    ensures states'[0] == states[0] && states'[|outcomes'|] == loader.Snapshot()
    ensures r.Ok? ==> Loaded(loader.root, AllJobs(sets[..i + 1]), outcomes')
    ensures r.Ok? ==> Successes(outcomes') == Successes(outcomes) + r.value
    ensures r.Err? ==> && |outcomes'| > 0 && outcomes'[|outcomes'| - 1] == Err(r.error) && r.error.Panic?
                       && forall k | 0 <= k < |outcomes'| - 1 :: !Panicked(outcomes'[k])
  {
    ghost var moreStates, more;
    r, moreStates, more := LoadSet(env, loader, sets[i].1);
    ExtendRun(env, loader.root, loader.fs.unwritable, sets, i, states, outcomes, moreStates, more);
    states', outcomes' := states + moreStates[1..], outcomes + more;
    if r.Err? {
      PanicAtEnd(outcomes, more);
    } else {
      LoadedNextSet(loader.root, sets, i, outcomes, more);
    }
  }

  /** The outer loop of `prepare_destination`: every source set in turn,
      each continuing from the state the previous one left. */
  method LoadSets(env: Env, loader: Loader, sets: seq<(string, SourceSet)>)
    returns (r: Result<seq<Reference>>, ghost states: seq<State>, ghost outcomes: seq<Result<Reference>>)
    requires loader.Valid()
    modifies loader, loader.fs
    ensures loader.Valid()
    ensures Ran(env, loader.root, loader.fs.unwritable, AllJobs(sets), states, outcomes)
    ensures states[0] == old(loader.Snapshot()) && states[|outcomes|] == loader.Snapshot()
    ensures r.Ok? ==> Loaded(loader.root, AllJobs(sets), outcomes) && r.value == Successes(outcomes)
    ensures r.Err? ==> && |outcomes| > 0 && outcomes[|outcomes| - 1] == Err(r.error) && r.error.Panic?
                       && forall k | 0 <= k < |outcomes| - 1 :: !Panicked(outcomes[k])
  {
    var refs: seq<Reference> := [];
    states, outcomes := [loader.Snapshot()], [];
    var i := 0;
    while i < |sets|
      invariant 0 <= i <= |sets|
      invariant loader.Valid()
      invariant Ran(env, loader.root, loader.fs.unwritable, AllJobs(sets), states, outcomes)
      invariant states[0] == old(loader.Snapshot()) && states[|outcomes|] == loader.Snapshot()
      invariant Loaded(loader.root, AllJobs(sets[..i]), outcomes) && refs == Successes(outcomes)
    {
      var loaded;
      loaded, states, outcomes := LoadNextSet(env, loader, sets, i, states, outcomes);
      if loaded.Err? {
        return Err(loaded.error), states, outcomes;
      }
      refs := refs + loaded.value;
      i := i + 1;
    }
    assert sets[..i] == sets;
    r := Ok(refs);
  }

  /** `close` wrote a listing of the final map to `index.json` and changed
      nothing else. */
  ghost predicate Closed(codec: IndexCodec, root: Path, last: State, files: map<Path, Bytes>)
  {
    exists s :: Lists(s, last.entries) && files == last.files[IndexPath(root) := codec.encode(s)]
  }

  /** `prepare_destination`. The cache is opened from the index on disk; each
      load takes its entry from the state the previous load left. Opening
      the cache, a provider's panic and closing the cache are fatal; any
      other failure excludes that source and the loop goes on. The ghost
      `states` and `outcomes` record every load, key by key. */
  method PrepareDestination(env: Env, fs: FileSystem, name: string, dest: Destination)
    returns (r: Result<Prepared>, ghost states: seq<State>, ghost outcomes: seq<Result<Reference>>)
    modifies fs
    ensures var read := ReadCacheIndex(old(fs.files), IndexPath(CacheRoot(name)), env.indexCodec);
      read.Err? ==> r == Err(read.error) && fs.files == old(fs.files) && outcomes == []
    ensures r.Err? ==> r.error.Panic? || r.error == Io
    ensures var read := ReadCacheIndex(old(fs.files), IndexPath(CacheRoot(name)), env.indexCodec);
      read.Ok? ==>
        && Ran(env, CacheRoot(name), fs.unwritable, AllJobs(dest.sources), states, outcomes)
        && states[0] == State(IndexToMap(read.value), old(fs.files))
    ensures r.Ok? ==>
      && Loaded(CacheRoot(name), AllJobs(dest.sources), outcomes)
      && r.value == Prepared(dest.path, Successes(outcomes))
      && IndexPath(CacheRoot(name)) !in fs.unwritable
      && Closed(env.indexCodec, CacheRoot(name), states[|outcomes|], fs.files)
    ensures var read := ReadCacheIndex(old(fs.files), IndexPath(CacheRoot(name)), env.indexCodec);
      read.Ok? && r.Err? ==>
        || (&& |outcomes| > 0 && outcomes[|outcomes| - 1] == Err(r.error) && r.error.Panic?
            && (forall k | 0 <= k < |outcomes| - 1 :: !Panicked(outcomes[k]))
            && fs.files == states[|outcomes|].files)
        || (&& Loaded(CacheRoot(name), AllJobs(dest.sources), outcomes)
            && IndexPath(CacheRoot(name)) in fs.unwritable && r.error == Io
            && fs.files == states[|outcomes|].files)
  {
    var root := CacheRoot(name);
    states, outcomes := [], [];
    var cache := Open(fs, root, env.indexCodec);
    if cache.Err? {
      return Err(cache.error), states, outcomes;
    }
    var loader := cache.value;
    var loaded;
    loaded, states, outcomes := LoadSets(env, loader, dest.sources);
    if loaded.Err? {
      return Err(loaded.error), states, outcomes;
    }
    var closed := loader.Close();
    if closed.Err? {
      return Err(closed.error), states, outcomes;
    }
    r := Ok(Prepared(dest.path, loaded.value));
  }

  /** The files after copying each reference, in order, to `root/name`; a
      reference whose blob is missing copies nothing. */
  function Placed(files: map<Path, Bytes>, root: Path, refs: seq<Reference>): map<Path, Bytes>
  {
    if refs == [] then files
    else
      var before := Placed(files, root, refs[..|refs| - 1]);
      var last := refs[|refs| - 1];
      if last.path in before then before[Join(root, last.name) := before[last.path]] else before
  }

  /** Every copy of `refs`, in turn, finds its blob and may write its target. */
  ghost predicate Copyable(files: map<Path, Bytes>, unwritable: set<Path>, root: Path, refs: seq<Reference>)
  {
    refs == [] ||
      var init := refs[..|refs| - 1];
      var last := refs[|refs| - 1];
      Copyable(files, unwritable, root, init) && last.path in Placed(files, root, init) && Join(root, last.name) !in unwritable
  }

  /** A sequence of copies that all succeed starts with copies that all succeed. */
  lemma {:induction false} CopyablePrefix(files: map<Path, Bytes>, unwritable: set<Path>, root: Path, refs: seq<Reference>, n: nat)
    requires n <= |refs| && Copyable(files, unwritable, root, refs)
    ensures Copyable(files, unwritable, root, refs[..n])
    decreases |refs|
  {
    if n < |refs| {
      var init := refs[..|refs| - 1];
      CopyablePrefix(files, unwritable, root, init, n);
      assert init[..n] == refs[..n];
    } else {
      assert refs[..n] == refs;
    }
  }

  /** `PreparedDestination::apply`: wipe the destination directory, then copy
      every reference into it, stopping at the first failed copy: on failure the
      files are those of the copies before it. */
  method Apply(fs: FileSystem, p: Prepared) returns (r: Result<()>)
    modifies fs
    ensures r.Ok? <==> Copyable(WithoutTree(old(fs.files), p.root), fs.unwritable, p.root, p.cacheFiles)
    ensures r.Ok? ==> fs.files == Placed(WithoutTree(old(fs.files), p.root), p.root, p.cacheFiles)
    ensures r.Err? ==> r.error == Io
    ensures r.Err? ==> exists k | 0 <= k < |p.cacheFiles| ::
      Copyable(WithoutTree(old(fs.files), p.root), fs.unwritable, p.root, p.cacheFiles[..k]) &&
      !Copyable(WithoutTree(old(fs.files), p.root), fs.unwritable, p.root, p.cacheFiles[..k + 1]) &&
      fs.files == Placed(WithoutTree(old(fs.files), p.root), p.root, p.cacheFiles[..k])
  {
    fs.RemoveTree(p.root);
    ghost var wiped := fs.files;
    var i := 0;
    while i < |p.cacheFiles|
      invariant 0 <= i <= |p.cacheFiles|
      invariant fs.files == Placed(wiped, p.root, p.cacheFiles[..i])
      invariant Copyable(wiped, fs.unwritable, p.root, p.cacheFiles[..i])
    {
      var reference := p.cacheFiles[i];
      ghost var next := p.cacheFiles[..i + 1];
      assert next[..i] == p.cacheFiles[..i] && next[i] == reference;
      var copied := CopyTo(fs, reference, p.root);
      if copied.Err? {
        assert !Copyable(wiped, fs.unwritable, p.root, next);
        if Copyable(wiped, fs.unwritable, p.root, p.cacheFiles) {
          CopyablePrefix(wiped, fs.unwritable, p.root, p.cacheFiles, i + 1);
        }
        return Err(Io);
      }
      i := i + 1;
    }
    assert p.cacheFiles[..i] == p.cacheFiles;
    r := Ok(());
  }

  /** Copying only ever writes inside `root`: every other path keeps its content. */
  lemma {:induction false} PlacedOutsideRoot(files: map<Path, Bytes>, root: Path, refs: seq<Reference>, p: Path)
    requires !Under(p, root)
    ensures p in Placed(files, root, refs) <==> p in files
    ensures p in files ==> Placed(files, root, refs)[p] == files[p]
    decreases |refs|
  {
    if refs != [] {
      PlacedOutsideRoot(files, root, refs[..|refs| - 1], p);
      var name := refs[|refs| - 1].name;
      assert Join(root, name).segments[..|root.segments|] == root.segments;
    }
  }

  /** With the blobs outside the destination and present, every copy finds
      its blob, so applying succeeds exactly when every target is writable. */
  lemma {:induction false} CopyableWhenBlobsOutside(files: map<Path, Bytes>, unwritable: set<Path>, root: Path, refs: seq<Reference>)
    requires forall k | 0 <= k < |refs| :: refs[k].path in files && !Under(refs[k].path, root)
    ensures Copyable(WithoutTree(files, root), unwritable, root, refs) <==>
      forall k | 0 <= k < |refs| :: Join(root, refs[k].name) !in unwritable
    decreases |refs|
  {
    if refs != [] {
      var n := |refs| - 1;
      var init := refs[..n];
      assert forall k | 0 <= k < n :: init[k] == refs[k];
      CopyableWhenBlobsOutside(files, unwritable, root, init);
      PlacedOutsideRoot(WithoutTree(files, root), root, init, refs[n].path);
    }
  }

  /** The files under the destination after copying are exactly the
      reference names. */
  lemma {:induction false} PlacedNames(files: map<Path, Bytes>, root: Path, refs: seq<Reference>)
    requires forall p | p in files :: !Under(p, root)
    requires forall k | 0 <= k < |refs| :: refs[k].path in files && !Under(refs[k].path, root)
    ensures forall p | Under(p, root) :: p in Placed(files, root, refs) <==> exists k | 0 <= k < |refs| :: p == Join(root, refs[k].name)
    decreases |refs|
  {
    if refs != [] {
      var n := |refs| - 1;
      var init := refs[..n];
      assert forall k | 0 <= k < n :: init[k] == refs[k];
      PlacedNames(files, root, init);
      PlacedOutsideRoot(files, root, init, refs[n].path);
      var before := Placed(files, root, init);
      assert Join(root, refs[n].name).segments[..|root.segments|] == root.segments;
      forall p | Under(p, root)
        ensures p in Placed(files, root, refs) <==> exists k | 0 <= k < |refs| :: p == Join(root, refs[k].name)
      {
        if p in before {
          var k :| 0 <= k < |init| && p == Join(root, init[k].name);
          assert p == Join(root, refs[k].name);
        }
        if exists k | 0 <= k < |refs| :: p == Join(root, refs[k].name) {
          var k :| 0 <= k < |refs| && p == Join(root, refs[k].name);
          if k < n {
            assert p == Join(root, init[k].name);
          }
        }
      }
    }
  }

  /** The file under a name is the blob of the last reference with that name. */
  lemma {:induction false} PlacedLastWins(files: map<Path, Bytes>, root: Path, refs: seq<Reference>)
    requires forall k | 0 <= k < |refs| :: refs[k].path in files && !Under(refs[k].path, root)
    ensures forall k | 0 <= k < |refs| && (forall l | k < l < |refs| :: refs[l].name != refs[k].name) ::
      Join(root, refs[k].name) in Placed(files, root, refs) && Placed(files, root, refs)[Join(root, refs[k].name)] == files[refs[k].path]
    decreases |refs|
  {
    if refs != [] {
      var n := |refs| - 1;
      var init := refs[..n];
      assert forall k | 0 <= k < n :: init[k] == refs[k];
      PlacedLastWins(files, root, init);
      PlacedOutsideRoot(files, root, init, refs[n].path);
      forall k | 0 <= k < |refs| && (forall l | k < l < |refs| :: refs[l].name != refs[k].name)
        ensures Join(root, refs[k].name) in Placed(files, root, refs) && Placed(files, root, refs)[Join(root, refs[k].name)] == files[refs[k].path]
      {
        if k < n {
          assert forall l | k < l < |init| :: init[l] == refs[l];
          assert refs[n].name != refs[k].name;
          assert Join(root, refs[k].name).segments[|root.segments|] == refs[k].name;
          assert Join(root, refs[n].name).segments[|root.segments|] == refs[n].name;
        }
      }
    }
  }

  /** After a successful apply, the destination directory holds exactly one
      file per reference name, and the file under a name is the blob of the
      last reference with that name. */
  lemma PlacedContents(files: map<Path, Bytes>, root: Path, refs: seq<Reference>)
    requires forall p | p in files :: !Under(p, root)
    requires forall k | 0 <= k < |refs| :: refs[k].path in files && !Under(refs[k].path, root)
    ensures forall p | Under(p, root) :: p in Placed(files, root, refs) <==> exists k | 0 <= k < |refs| :: p == Join(root, refs[k].name)
    ensures forall k | 0 <= k < |refs| && (forall l | k < l < |refs| :: refs[l].name != refs[k].name) ::
      Join(root, refs[k].name) in Placed(files, root, refs) && Placed(files, root, refs)[Join(root, refs[k].name)] == files[refs[k].path]
  {
    PlacedNames(files, root, refs);
    PlacedLastWins(files, root, refs);
  }

  /** Applying the same prepared destination twice leaves the same files as
      applying it once, when the blobs live outside the destination. */
  lemma ApplyIdempotent(files: map<Path, Bytes>, root: Path, refs: seq<Reference>)
    requires forall k | 0 <= k < |refs| :: !Under(refs[k].path, root)
    ensures var once := Placed(WithoutTree(files, root), root, refs);
      Placed(WithoutTree(once, root), root, refs) == once
  {
    var wiped := WithoutTree(files, root);
    var once := Placed(wiped, root, refs);
    forall p
      ensures p in WithoutTree(once, root) <==> p in wiped
      ensures p in wiped ==> WithoutTree(once, root)[p] == wiped[p]
    {
      if !Under(p, root) {
        PlacedOutsideRoot(wiped, root, refs, p);
      }
    }
    assert WithoutTree(once, root) == wiped;
  }
}
