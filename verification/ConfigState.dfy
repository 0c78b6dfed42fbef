/** The configuration behind its lock: what a load, a replacement or a change of watching mode
does to it. The class is the stored object; `Inner` is its value, on which runs are studied. */
module ConfigState {
  import opened Options
  import opened WatchTable

  /** A configuration: the one setting the reloader reads, and all the others. */
  datatype Config = Config(automaticallyReload: bool, settings: string)

  datatype Result = Ok(config: Config) | Err(error: string)

  /** What reading the configuration gave. `canonical` is the resolved form of `fileName`, when
  it resolves; `luaPaths` are the extra paths the configuration asked to watch. */
  datatype LoadedConfig = LoadedConfig(
    config: Result,
    fileName: Option<Path>,
    canonical: Option<Path>,
    luaPaths: seq<Path>,
    warnings: seq<string>)

  function WatchPaths(l: LoadedConfig): seq<Path> {
    var file := if l.fileName.None? then [] else [l.fileName.value];
    var resolved := if l.fileName.Some? && l.canonical.Some? && l.canonical != l.fileName then [l.canonical.value] else [];
    file + resolved + l.luaPaths
  }

  function PathSet(paths: seq<Path>): set<Path> {
    set p | p in paths
  }

  function Without(ids: set<nat>, dropped: seq<nat>): set<nat> {
    set id | id in ids && id !in dropped
  }

  /** The outside world during one load: an answer for each path to watch, in order, and the
  paths that cannot be unwatched. */
  datatype World = World(answers: seq<Answer>, stuck: set<Path>)

  datatype Inner = Inner(
    config: Config,
    error: Option<string>,
    warnings: seq<string>,
    generation: nat,
    table: Table,
    deferred: bool,
    pending: seq<Path>,
    subscribers: set<nat>,
    nextSubscriber: nat)

  // ----- Operations on the value -----

  /** A good load replaces the configuration; a failed one only leaves its message. */
  function TakeResult(s: Inner, r: Result): Inner {
    match r
    case Ok(config) => s.(config := config, error := None, generation := s.generation + 1)
    case Err(error) => s.(error := Some(error))
  }

  function Apply(s: Inner, l: LoadedConfig, w: World): Inner
    requires |w.answers| == |WatchPaths(l)|
  {
    var s := TakeResult(s.(warnings := l.warnings), l.config);
    var paths := WatchPaths(l);
    if !s.config.automaticallyReload then
      s.(pending := [], table := Unwatch(s.table, {}, w.stuck))
    else if s.deferred then
      s.(pending := paths)
    else
      s.(pending := [], table := WatchAll(Unwatch(s.table, PathSet(paths), w.stuck), paths, w.answers))
  }

  function Use(s: Inner, config: Config): Inner {
    TakeResult(s, Ok(config))
  }

  function Enable(s: Inner, answers: seq<Answer>): Inner
    requires |answers| == |s.pending|
  {
    if !s.deferred then s
    else if !s.config.automaticallyReload then s.(deferred := false, pending := [])
    else s.(deferred := false, pending := [], table := WatchAll(s.table, s.pending, answers))
  }

  // ----- The stored object -----

  class ConfigInner {
    var config: Config
    var error: Option<string>
    var warnings: seq<string>
    var generation: nat
    var watcher: Option<set<Path>>
    var watchedPaths: set<Path>
    var watchedFiles: set<Path>
    var fileToDir: map<Path, Path>
    var dirWatchCount: map<Path, nat>
    var deferWatchersUntilEnabled: bool
    var pendingWatchPaths: seq<Path>
    var subscribers: set<nat>
    var nextSubscriber: nat

    function Watches(): Table
      reads this
    {
      Table(watcher, watchedPaths, watchedFiles, fileToDir, dirWatchCount)
    }

    function State(): Inner
      reads this
    {
      Inner(config, error, warnings, generation, Watches(), deferWatchersUntilEnabled, pendingWatchPaths,
            subscribers, nextSubscriber)
    }

    ghost predicate Valid()
      reads this
    {
      Consistent(Watches()) && forall id :: id in subscribers ==> id < nextSubscriber
    }

    constructor (config: Config)
      ensures Valid()
      ensures State() == Inner(config, None, [], 0, EMPTY, false, [], {}, 0)
    {
      this.config, error, warnings, generation := config, None, [], 0;
      watcher, watchedPaths, watchedFiles, fileToDir, dirWatchCount := None, {}, {}, map[], map[];
      deferWatchersUntilEnabled, pendingWatchPaths := false, [];
      subscribers, nextSubscriber := {}, 0;
    }

    method Subscribe() returns (id: nat)
      requires Valid()
      modifies this
      ensures Valid() && id !in old(subscribers)
      ensures State() == old(State()).(subscribers := old(subscribers) + {id}, nextSubscriber := id + 1)
    {
      id := nextSubscriber;
      nextSubscriber := nextSubscriber + 1;
      subscribers := subscribers + {id};
    }

    method Unsub(id: nat)
      requires Valid()
      modifies this
      ensures Valid() && State() == old(State()).(subscribers := old(subscribers) - {id})
    {
      subscribers := subscribers - {id};
    }

    method RemoveSubscribers(toRemove: seq<nat>)
      requires Valid()
      modifies this
      ensures Valid() && State() == old(State()).(subscribers := Without(old(subscribers), toRemove))
    {
      for i := 0 to |toRemove|
        invariant State() == old(State()).(subscribers := Without(old(subscribers), toRemove[..i]))
      {
        subscribers := subscribers - {toRemove[i]};
      }
      assert toRemove[..|toRemove|] == toRemove;
    }

    method CountFile(path: Path, dir: Path) returns (firstInDir: bool)
      modifies this`watchedFiles, this`fileToDir, this`dirWatchCount
      ensures watchedFiles == old(watchedFiles) + {path} && fileToDir == old(fileToDir)[path := dir]
      ensures dirWatchCount == old(dirWatchCount)[dir := CountOf(old(dirWatchCount), dir) + 1]
      ensures firstInDir <==> CountOf(old(dirWatchCount), dir) == 0
    {
      watchedFiles := watchedFiles + {path};
      fileToDir := fileToDir[path := dir];
      var count := CountOf(dirWatchCount, dir) + 1;
      dirWatchCount := dirWatchCount[dir := count];
      firstInDir := count == 1;
    }

    method UncountFile(path: Path, dir: Path) returns (lastInDir: bool)
      modifies this`watchedFiles, this`fileToDir, this`dirWatchCount
      ensures watchedFiles == old(watchedFiles) - {path} && fileToDir == old(fileToDir) - {path}
      ensures lastInDir <==> CountOf(old(dirWatchCount), dir) == 1
      ensures lastInDir ==> dirWatchCount == old(dirWatchCount) - {dir}
      ensures CountOf(old(dirWatchCount), dir) > 1 ==>
        dirWatchCount == old(dirWatchCount)[dir := CountOf(old(dirWatchCount), dir) - 1]
    {
      watchedFiles := watchedFiles - {path};
      fileToDir := fileToDir - {path};
      lastInDir := false;
      if CountOf(dirWatchCount, dir) > 0 {
        dirWatchCount := dirWatchCount[dir := dirWatchCount[dir] - 1];
        if dirWatchCount[dir] == 0 {
          dirWatchCount := dirWatchCount - {dir};
          lastInDir := true;
        }
      }
    }

    /** A regular file is watched through its directory; a refusal undoes the registration. */
    method RegisterFile(path: Path, accepts: bool) returns (ok: bool)
      requires watcher.Some? && path !in watchedFiles && path !in fileToDir
      requires CountOf(dirWatchCount, DirOf(path)) == 0 ==> DirOf(path) !in dirWatchCount
      modifies this`watcher, this`watchedFiles, this`fileToDir, this`dirWatchCount
      ensures ok <==> CountOf(old(dirWatchCount), DirOf(path)) > 0 || accepts
      ensures !ok ==> Watches() == old(Watches())
      ensures ok ==> watchedFiles == old(watchedFiles) + {path} && fileToDir == old(fileToDir)[path := DirOf(path)]
      ensures ok ==> dirWatchCount == old(dirWatchCount)[DirOf(path) := CountOf(old(dirWatchCount), DirOf(path)) + 1]
      ensures ok ==> watcher == if CountOf(old(dirWatchCount), DirOf(path)) == 0
                                then Some(old(watcher).value + {DirOf(path)}) else old(watcher)
    {
      var dir := match Parent(path) case Some(d) => d case None => path;
      var firstInDir := CountFile(path, dir);
      ok := true;
      if firstInDir {
        if accepts {
          watcher := Some(watcher.value + {dir});
        } else {
          var _ := UncountFile(path, dir);
          assert fileToDir == old(fileToDir) && dirWatchCount == old(dirWatchCount);
          ok := false;
        }
      }
    }

    method WatchPath(path: Path, answer: Answer)
      requires Consistent(Watches())
      modifies this`watcher, this`watchedPaths, this`watchedFiles, this`fileToDir, this`dirWatchCount
      ensures Consistent(Watches()) && Watches() == Watch(old(Watches()), path, answer)
    {
      WatchConsistent(Watches(), path, answer);
      Unlisted(Watches(), path);
      hide Consistent, CountsFiles, FilesIn;
      if watcher.None? {
        if answer.creates {
          watcher := Some({});
        } else {
          return;
        }
      }
      if path in watchedPaths {
        return;
      }
      if answer.isFile {
        var ok := RegisterFile(path, answer.accepts);
        if !ok {
          return;
        }
      } else {
        if !answer.accepts {
          return;
        }
        watcher := Some(watcher.value + {path});
      }
      watchedPaths := watchedPaths + {path};
    }

    method UnwatchPath(path: Path, stuck: set<Path>)
      requires path in fileToDir ==> fileToDir[path] in dirWatchCount && dirWatchCount[fileToDir[path]] > 0
      modifies this`watcher, this`watchedPaths, this`watchedFiles, this`fileToDir, this`dirWatchCount
      ensures Watches() == DropPath(old(Watches()), path, stuck)
    {
      if path in fileToDir {
        var dir := fileToDir[path];
        var lastInDir := UncountFile(path, dir);
        if lastInDir && watcher.Some? && dir !in stuck {
          watcher := Some(watcher.value - {dir});
        }
      } else {
        if watcher.Some? && path !in stuck {
          watcher := Some(watcher.value - {path});
        }
      }
      watchedPaths := watchedPaths - {path};
    }

    /** Stale paths go one at a time, in any order. */
    method UnwatchStalePaths(active: set<Path>, stuck: set<Path>)
      requires Consistent(Watches())
      modifies this`watcher, this`watchedPaths, this`watchedFiles, this`fileToDir, this`dirWatchCount
      ensures Consistent(Watches()) && Watches() == Unwatch(old(Watches()), active, stuck)
    {
      var stale := watchedPaths - active;
      ghost var t0, gone := Watches(), {};
      DropNothing(t0, stuck);
      assert StaleLeft(t0, active, gone, stale);
      hide Consistent, Dropped, DropPath, Unwatch;
      while stale != {}
        invariant StaleLeft(t0, active, gone, stale) && Dropped(t0, gone, stuck, Watches())
        decreases |stale|
      {
        var path :| path in stale;
        OneLessStale(t0, active, gone, stale, path, stuck, Watches());
        DropOneMore(t0, gone, stuck, Watches(), path);
        UnwatchPath(path, stuck);
        gone := gone + {path};
        stale := stale - {path};
      }
      UnwatchDrops(t0, active, stuck);
      DroppedUnique(t0, gone, stuck, Watches(), Unwatch(t0, active, stuck));
      DroppedKeeps(t0, gone, stuck, Watches());
    }

    static method PathsToWatch(loaded: LoadedConfig) returns (paths: seq<Path>)
      ensures paths == WatchPaths(loaded)
    {
      paths := [];
      if loaded.fileName.Some? {
        paths := paths + [loaded.fileName.value];
        if loaded.canonical.Some? && loaded.canonical != loaded.fileName {
          paths := paths + [loaded.canonical.value];
        }
      }
      paths := paths + loaded.luaPaths;
    }

    method TakeLoaded(result: Result)
      modifies this`config, this`error, this`generation
      ensures State() == TakeResult(old(State()), result)
    {
      match result {
        case Ok(c) =>
          config := c;
          error := None;
          generation := generation + 1;
        case Err(e) =>
          error := Some(e);
      }
    }

    /** Applies a load under the lock; the caller notifies the subscribers outside it. */
    method ApplyLoaded(loaded: LoadedConfig, world: World) returns (toNotify: set<nat>)
      requires Valid() && |world.answers| == |WatchPaths(loaded)|
      modifies this
      ensures Valid() && State() == Apply(old(State()), loaded, world)
      ensures toNotify == old(subscribers)
    {
      hide Consistent, Unwatch, WatchAll, WatchPaths, PathSet;
      warnings := loaded.warnings;
      var paths := PathsToWatch(loaded);
      TakeLoaded(loaded.config);
      toNotify := subscribers;
      pendingWatchPaths := [];
      if config.automaticallyReload {
        if deferWatchersUntilEnabled {
          pendingWatchPaths := paths;
        } else {
          UnwatchStalePaths(PathSet(paths), world.stuck);
          WatchEach(paths, world.answers);
        }
      } else {
        UnwatchStalePaths({}, world.stuck);
      }
    }

    method WatchEach(paths: seq<Path>, answers: seq<Answer>)
      requires Consistent(Watches()) && |answers| == |paths|
      modifies this`watcher, this`watchedPaths, this`watchedFiles, this`fileToDir, this`dirWatchCount
      ensures Consistent(Watches()) && Watches() == WatchAll(old(Watches()), paths, answers)
    {
      for i := 0 to |paths|
        invariant Consistent(Watches()) && Watches() == WatchAll(old(Watches()), paths[..i], answers[..i])
      {
        WatchPath(paths[i], answers[i]);
        assert paths[..i + 1][..i] == paths[..i] && answers[..i + 1][..i] == answers[..i];
      }
      assert paths[..|paths|] == paths && answers[..|paths|] == answers;
    }

    method DeferWatchersUntilEnabled()
      requires Valid()
      modifies this
      ensures Valid() && State() == old(State()).(deferred := true)
    {
      deferWatchersUntilEnabled := true;
    }

    method EnableDeferredWatchers(answers: seq<Answer>)
      requires Valid() && |answers| == |pendingWatchPaths|
      modifies this
      ensures Valid() && State() == Enable(old(State()), answers)
    {
      if !deferWatchersUntilEnabled {
        return;
      }
      deferWatchersUntilEnabled := false;
      if !config.automaticallyReload {
        pendingWatchPaths := [];
        return;
      }
      var paths := pendingWatchPaths;
      pendingWatchPaths := [];
      WatchEach(paths, answers);
    }

    /** `use_defaults`, `use_this_config` and `use_test` differ only in the configuration given. */
    method UseThisConfig(c: Config)
      requires Valid()
      modifies this
      ensures Valid() && State() == Use(old(State()), c)
    {
      config := c;
      error := None;
      generation := generation + 1;
    }
  }

  lemma Unlisted(t: Table, p: Path)
    requires Consistent(t)
    ensures p !in t.paths ==> p !in t.files && p !in t.fileToDir
    ensures CountOf(t.dirCount, DirOf(p)) == 0 ==> DirOf(p) !in t.dirCount
  {
  }

  lemma DropNothing(t: Table, stuck: set<Path>)
    requires Consistent(t)
    ensures Dropped(t, {}, stuck, t)
  {
  }

  /** `gone` of the stale paths are dropped, `stale` are left. */
  ghost predicate StaleLeft(t: Table, active: set<Path>, gone: set<Path>, stale: set<Path>) {
    gone !! stale && gone + stale == t.paths - active
  }

  lemma OneLessStale(t0: Table, active: set<Path>, gone: set<Path>, stale: set<Path>, p: Path, stuck: set<Path>, t: Table)
    requires StaleLeft(t0, active, gone, stale) && p in stale && Dropped(t0, gone, stuck, t)
    ensures StaleLeft(t0, active, gone + {p}, stale - {p}) && |stale - {p}| < |stale|
    ensures p in t.paths
    ensures p in t.fileToDir ==> t.fileToDir[p] in t.dirCount && t.dirCount[t.fileToDir[p]] > 0
  {
    if p in t.fileToDir { DropCounts(t, p, stuck); }
  }
}
