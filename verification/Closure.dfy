/** The cached walk over path dependencies (xtask/src/build_guests.rs, `guest_closure_input_paths` with
    `ClosureCache`). Reading a manifest is abstract: it yields its path dependencies or fails. */
module Closure {
  import opened Orders

  type Path = string

  /** The files below a crate root that count as inputs. */
  datatype Crate = Crate(sources: seq<Path>, cargoToml: seq<Path>, buildScript: seq<Path>)

  /** `deps` holds the manifests that can be read, with their path dependencies in order. */
  datatype FileSystem = FileSystem(deps: map<Path, seq<Path>>, crates: map<Path, Crate>)

  datatype Answer = Inputs(paths: seq<Path>) | Unreadable(manifest: Path)

  function FilesOf(fs: FileSystem, manifest: Path): seq<Path> {
    if manifest in fs.crates then
      fs.crates[manifest].sources + fs.crates[manifest].cargoToml + fs.crates[manifest].buildScript
    else []
  }

  // ---- Plain reachability ----

  ghost predicate Step(fs: FileSystem, a: Path, b: Path) {
    a in fs.deps && b in fs.deps[a]
  }

  ghost predicate IsWalk(fs: FileSystem, walk: seq<Path>) {
    walk != [] && forall i | 0 <= i < |walk| - 1 :: Step(fs, walk[i], walk[i + 1])
  }

  ghost predicate Reaches(fs: FileSystem, start: Path, manifest: Path) {
    exists walk :: IsWalk(fs, walk) && walk[0] == start && walk[|walk| - 1] == manifest
  }

  lemma ReachesItself(fs: FileSystem, start: Path)
    ensures Reaches(fs, start, start)
  {
    assert IsWalk(fs, [start]);
  }

  lemma ReachesFurther(fs: FileSystem, start: Path, a: Path, b: Path)
    requires Reaches(fs, start, a) && Step(fs, a, b)
    ensures Reaches(fs, start, b)
  {
    var walk :| IsWalk(fs, walk) && walk[0] == start && walk[|walk| - 1] == a;
    assert IsWalk(fs, walk + [b]);
    assert (walk + [b])[|walk|] == b;
  }

  ghost predicate ClosedUnder(fs: FileSystem, s: set<Path>) {
    forall a, b | a in s && Step(fs, a, b) :: b in s
  }

  lemma {:induction false} WalkStaysInside(fs: FileSystem, s: set<Path>, walk: seq<Path>)
    requires ClosedUnder(fs, s) && IsWalk(fs, walk) && walk[0] in s
    ensures walk[|walk| - 1] in s
    decreases |walk|
  {
    if |walk| > 1 {
      var front := walk[..|walk| - 1];
      WalkStaysInside(fs, s, front);
      assert Step(fs, walk[|walk| - 2], walk[|walk| - 2 + 1]);
    }
  }

  lemma ReachableStaysInside(fs: FileSystem, start: Path, s: set<Path>, manifest: Path)
    requires ClosedUnder(fs, s) && start in s && Reaches(fs, start, manifest)
    ensures manifest in s
  {
    var walk :| IsWalk(fs, walk) && walk[0] == start && walk[|walk| - 1] == manifest;
    WalkStaysInside(fs, s, walk);
  }

  /** Every path the walk can ever meet. */
  ghost function Universe(fs: FileSystem, start: Path): set<Path> {
    {start} + set a, b | a in fs.deps && b in fs.deps[a] :: b
  }

  // ---- The cached walk ----

  ghost predicate Agrees(cache: map<Path, seq<Path>>, fs: FileSystem) {
    forall m | m in cache :: m in fs.deps && cache[m] == fs.deps[m]
  }

  class ClosureCache {
    var inner: map<Path, seq<Path>>

    constructor ()
      ensures inner == map[]
    {
      inner := map[];
    }
  }

  /** The files of exactly the reachable manifests; an error exactly when a reachable manifest cannot be read. */
  ghost predicate Correct(answer: Answer, fs: FileSystem, start: Path) {
    match answer
    case Inputs(paths) =>
      && (forall m | Reaches(fs, start, m) :: m in fs.deps)
      && StrictlySorted(paths)
      && (forall p :: p in paths <==> exists m | Reaches(fs, start, m) :: p in FilesOf(fs, m))
    case Unreadable(manifest) =>
      Reaches(fs, start, manifest) && manifest !in fs.deps
  }

  /** Manifests whose files and dependencies have been taken in. */
  ghost predicate Processed(done: set<Path>, visited: set<Path>, files: seq<Path>, fs: FileSystem) {
    && (forall m | m in done :: m in fs.deps && forall d | d in fs.deps[m] :: d in visited)
    && (forall p :: p in files <==> exists m | m in done :: p in FilesOf(fs, m))
  }

  method DependenciesOf(manifest: Path, fs: FileSystem, cache: ClosureCache)
    returns (deps: seq<Path>, readable: bool)
    requires Agrees(cache.inner, fs)
    modifies cache
    ensures Agrees(cache.inner, fs)
    ensures forall m | m in old(cache.inner) :: m in cache.inner
    ensures readable <==> manifest in fs.deps
    ensures readable ==> deps == fs.deps[manifest] && manifest in cache.inner
  {
    if manifest in cache.inner {
      return cache.inner[manifest], true;
    }
    if manifest !in fs.deps { return [], false; }
    deps, readable := fs.deps[manifest], true;
    cache.inner := cache.inner[manifest := deps];
  }

  method VisitAll(deps: seq<Path>, visited: set<Path>, queue: seq<Path>)
    returns (visited': set<Path>, queue': seq<Path>)
    ensures visited' == visited + set d | d in deps
    ensures queue <= queue'
    ensures forall p | p in queue' :: p in queue || p in deps
    ensures forall p | p in visited' - visited :: p in queue'
    ensures visited' == visited ==> queue' == queue
  {
    visited', queue' := visited, queue;
    for i := 0 to |deps|
      invariant visited' == visited + set d | d in deps[..i]
      invariant queue <= queue'
      invariant forall p | p in queue' :: p in queue || p in deps
      invariant forall p | p in visited' - visited :: p in queue'
      invariant visited' == visited ==> queue' == queue
    {
      TakeOneMore(deps, i);
      if deps[i] !in visited' {
        visited' := visited' + {deps[i]};
        queue' := queue' + [deps[i]];
      }
    }
    TakeAll(deps);
  }

  lemma ProcessOne(done: set<Path>, visited: set<Path>, files: seq<Path>, fs: FileSystem, m: Path)
    requires Processed(done, visited, files, fs) && m in fs.deps
    ensures Processed(done + {m}, visited + (set d | d in fs.deps[m]), files + FilesOf(fs, m), fs)
  {
    var files' := files + FilesOf(fs, m);
    forall p ensures p in files' <==> exists n | n in done + {m} :: p in FilesOf(fs, n) {
      if p in FilesOf(fs, m) { assert m in done + {m}; }
    }
  }

  /** What the queue, the visited set and the collected files say about the graph. */
  ghost predicate Progress(fs: FileSystem, start: Path, done: set<Path>, visited: set<Path>, files: seq<Path>) {
    && start in visited
    && (forall m | m in visited :: Reaches(fs, start, m))
    && visited <= Universe(fs, start)
    && Processed(done, visited, files, fs)
  }

  lemma ProgressOne(fs: FileSystem, start: Path, done: set<Path>, visited: set<Path>, files: seq<Path>, m: Path)
    requires Progress(fs, start, done, visited, files) && m in visited && m in fs.deps
    ensures Progress(fs, start, done + {m}, visited + (set d | d in fs.deps[m]), files + FilesOf(fs, m))
  {
    ProcessOne(done, visited, files, fs, m);
    forall d | d in fs.deps[m] ensures Reaches(fs, start, d) {
      ReachesFurther(fs, start, m, d);
    }
  }

  lemma Finished(fs: FileSystem, start: Path, visited: set<Path>, files: seq<Path>)
    requires Progress(fs, start, visited, visited, files)
    ensures forall m :: Reaches(fs, start, m) <==> m in visited
    ensures Correct(Inputs(SortDedup(files)), fs, start)
  {
    assert ClosedUnder(fs, visited);
    forall m | Reaches(fs, start, m) ensures m in visited {
      ReachableStaysInside(fs, start, visited, m);
    }
    SortDedupStrict(files);
  }

  /** What has been visited is either done or still in the queue. */
  ghost predicate Pending(done: set<Path>, queue: seq<Path>, visited: set<Path>) {
    visited == done + set m | m in queue
  }

  lemma PopFront(done: set<Path>, queue: seq<Path>, visited: set<Path>)
    requires queue != [] && Pending(done, queue, visited)
    ensures Pending(done + {queue[0]}, queue[1..], visited) && queue[0] in visited
  {
    assert queue == [queue[0]] + queue[1..];
  }

  lemma PushBack(done: set<Path>, queue: seq<Path>, visited: set<Path>, queue': seq<Path>, visited': set<Path>,
                 deps: seq<Path>)
    requires Pending(done, queue, visited)
    requires visited' == visited + set d | d in deps
    requires queue <= queue' && forall p | p in queue' :: p in queue || p in deps
    requires forall p | p in visited' - visited :: p in queue'
    ensures Pending(done, queue', visited')
  {
    forall p | p in queue ensures p in queue' {
      var i :| 0 <= i < |queue| && queue[i] == p;
      assert queue'[i] == p;
    }
  }

  /** Terminates on cyclic graphs, and gives the same answer for every cache that agrees with the files. */
  method InputPaths(start: Path, fs: FileSystem, cache: ClosureCache) returns (answer: Answer)
    requires Agrees(cache.inner, fs)
    modifies cache
    ensures Correct(answer, fs, start)
    ensures Agrees(cache.inner, fs)
    ensures forall m | m in old(cache.inner) :: m in cache.inner
    ensures answer.Inputs? ==> forall m | Reaches(fs, start, m) :: m in cache.inner
  {
    var visited, queue, result := {start}, [start], [];
    ghost var done: set<Path> := {};
    ReachesItself(fs, start);
    while queue != []
      invariant Agrees(cache.inner, fs)
      invariant forall m | m in old(cache.inner) :: m in cache.inner
      invariant forall m | m in done :: m in cache.inner
      invariant Pending(done, queue, visited)
      invariant Progress(fs, start, done, visited, result)
      decreases Universe(fs, start) - visited, |queue|
    {
      var manifest, rest := queue[0], queue[1..];
      PopFront(done, queue, visited);
      ghost var before := result;
      result := result + FilesOf(fs, manifest);
      var deps, readable := DependenciesOf(manifest, fs, cache);
      if !readable { return Unreadable(manifest); }
      ProgressOne(fs, start, done, visited, before, manifest);
      ghost var seen := visited;
      visited, queue := VisitAll(deps, visited, rest);
      done := done + {manifest};
      PushBack(done, rest, seen, queue, visited, deps);
    }
    Finished(fs, start, visited, result);
    answer := Inputs(SortDedup(result));
  }

  /** The answer is a function of the start and the files alone, whether or not a cache took part: both walks
      fail, or both return the same list. */
  lemma AnswerIsDetermined(a: Answer, b: Answer, fs: FileSystem, start: Path)
    requires Correct(a, fs, start) && Correct(b, fs, start)
    ensures a.Inputs? <==> b.Inputs?
    ensures a.Inputs? ==> a == b
  {
    if a.Inputs? && b.Inputs? {
      StrictlySortedUnique(a.paths, b.paths);
    }
  }
}
