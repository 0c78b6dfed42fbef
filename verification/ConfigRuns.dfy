/** What holds over whole runs of the stored configuration: the watch table stays consistent,
and deferring the watchers ends in the same table as watching eagerly. */
module ConfigRuns {
  import opened Options
  import opened WatchTable
  import opened ConfigState

  // ----- Every run keeps the watch table consistent -----

  datatype Event =
    | Load(loaded: LoadedConfig, world: World)
    | Replace(config: Config)
    | Defer
    | EnableNow(answers: seq<Answer>)

  ghost predicate Happens(s: Inner, e: Event, s': Inner) {
    match e
    case Load(l, w) => |w.answers| == |WatchPaths(l)| && s' == Apply(s, l, w)
    case Replace(c) => s' == Use(s, c)
    case Defer => s' == s.(deferred := true)
    case EnableNow(answers) => |answers| == |s.pending| && s' == Enable(s, answers)
  }

  ghost predicate Run(states: seq<Inner>, events: seq<Event>) {
    |states| == |events| + 1 && forall i :: 0 <= i < |events| ==> Happens(states[i], events[i], states[i + 1])
  }

  lemma StepKeepsTable(s: Inner, e: Event, s': Inner)
    requires Consistent(s.table) && Happens(s, e, s')
    ensures Consistent(s'.table)
  {
    match e
    case Load(l, w) =>
      var active := if s'.config.automaticallyReload then PathSet(WatchPaths(l)) else {};
      UnwatchDrops(s.table, active, w.stuck);
      DroppedKeeps(s.table, s.table.paths - active, w.stuck, Unwatch(s.table, active, w.stuck));
      WatchAllKeeps(Unwatch(s.table, active, w.stuck), WatchPaths(l), w.answers);
    case EnableNow(answers) =>
      WatchAllKeeps(s.table, s.pending, answers);
    case _ =>
  }

  /** Whatever the operating system answers, in every state of every run the four collections
  fit together. */
  lemma {:induction false} TableAlwaysConsistent(states: seq<Inner>, events: seq<Event>, i: nat)
    requires Run(states, events) && Consistent(states[0].table) && i < |states|
    ensures Consistent(states[i].table)
  {
    if i > 0 {
      TableAlwaysConsistent(states, events, i - 1);
      StepKeepsTable(states[i - 1], events[i - 1], states[i]);
    }
  }

  lemma StepKeepsExact(s: Inner, e: Event, s': Inner)
    requires Consistent(s.table) && OsExact(s.table) && Happens(s, e, s')
    requires Direct(s.table) !! s.table.dirCount.Keys && (e.Load? ==> e.world.stuck == {})
    ensures OsExact(s'.table)
  {
    match e
    case Load(l, w) =>
      var active := if s'.config.automaticallyReload then PathSet(WatchPaths(l)) else {};
      UnwatchDrops(s.table, active, w.stuck);
      DroppedKeeps(s.table, s.table.paths - active, w.stuck, Unwatch(s.table, active, w.stuck));
      DroppedExact(s.table, s.table.paths - active, Unwatch(s.table, active, w.stuck));
      WatchAllKeeps(Unwatch(s.table, active, w.stuck), WatchPaths(l), w.answers);
    case EnableNow(answers) =>
      WatchAllKeeps(s.table, s.pending, answers);
    case _ =>
  }

  /** Over every run in which unwatching succeeds and no direct path is a watched file's
  directory, the operating system watches exactly the counted directories and the direct
  paths, although any registration may be refused. */
  lemma {:induction false} RegistrationsAlwaysExact(states: seq<Inner>, events: seq<Event>, i: nat)
    requires Run(states, events) && Consistent(states[0].table) && OsExact(states[0].table) && i < |states|
    requires forall j :: 0 <= j < |events| && events[j].Load? ==> events[j].world.stuck == {}
    requires forall j :: 0 <= j < i ==> Direct(states[j].table) !! states[j].table.dirCount.Keys
    ensures OsExact(states[i].table)
  {
    hide Consistent, OsExact, Direct, Happens;
    if i > 0 {
      RegistrationsAlwaysExact(states, events, i - 1);
      TableAlwaysConsistent(states, events, i - 1);
      StepKeepsExact(states[i - 1], events[i - 1], states[i]);
    }
  }

  /** `dir` is `f` without its last component; the root is its own directory. */
  predicate CutFrom(dir: Path, f: Path) {
    if f == [] then dir == [] else |dir| + 1 == |f| && dir == f[..|dir|]
  }

  ghost predicate DirsAreParents(m: map<Path, Path>) {
    forall f :: f in m ==> CutFrom(m[f], f)
  }

  lemma DirIsCutFrom(f: Path)
    ensures CutFrom(DirOf(f), f)
  {
  }

  lemma WatchDir(t: Table, p: Path, a: Answer)
    requires DirsAreParents(t.fileToDir)
    ensures DirsAreParents(Watch(t, p, a).fileToDir)
  {
    DirIsCutFrom(p);
    hide DirOf, CutFrom;
  }

  lemma {:induction false} WatchAllDirs(t: Table, paths: seq<Path>, answers: seq<Answer>)
    requires |answers| == |paths| && DirsAreParents(t.fileToDir)
    ensures DirsAreParents(WatchAll(t, paths, answers).fileToDir)
  {
    hide Watch, DirsAreParents;
    if paths != [] {
      var n := |paths| - 1;
      WatchAllDirs(t, paths[..n], answers[..n]);
      WatchDir(WatchAll(t, paths[..n], answers[..n]), paths[n], answers[n]);
    }
  }

  lemma UnwatchDirs(t: Table, active: set<Path>, stuck: set<Path>)
    requires DirsAreParents(t.fileToDir)
    ensures DirsAreParents(Unwatch(t, active, stuck).fileToDir)
  {
    hide CutFrom, Counts;
  }

  lemma StepKeepsDirs(s: Inner, e: Event, s': Inner)
    requires DirsAreParents(s.table.fileToDir) && Happens(s, e, s')
    ensures DirsAreParents(s'.table.fileToDir)
  {
    hide DirsAreParents, Unwatch, WatchAll, WatchPaths, PathSet;
    match e
    case Load(l, w) =>
      var active := if s'.config.automaticallyReload then PathSet(WatchPaths(l)) else {};
      UnwatchDirs(s.table, active, w.stuck);
      WatchAllDirs(Unwatch(s.table, active, w.stuck), WatchPaths(l), w.answers);
    case EnableNow(answers) =>
      WatchAllDirs(s.table, s.pending, answers);
    case _ =>
  }

  /** In every state of every run a watched file is watched through the path that its last
  component is cut from. */
  lemma {:induction false} DirsAlwaysParents(states: seq<Inner>, events: seq<Event>, i: nat)
    requires Run(states, events) && DirsAreParents(states[0].table.fileToDir) && i < |states|
    ensures DirsAreParents(states[i].table.fileToDir)
  {
    hide DirsAreParents;
    if i > 0 {
      DirsAlwaysParents(states, events, i - 1);
      StepKeepsDirs(states[i - 1], events[i - 1], states[i]);
    }
  }

  // ----- Which paths one step watches -----

  /** A path that a load asks for: the configuration file, its resolved form, or an extra path. */
  predicate AskedFor(l: LoadedConfig, p: Path) {
    || l.fileName == Some(p)
    || (l.fileName.Some? && l.canonical == Some(p))
    || p in l.luaPaths
  }

  /** Every watch can be set up. */
  predicate AllAccepted(answers: seq<Answer>) {
    forall i :: 0 <= i < |answers| ==> answers[i].creates && answers[i].accepts
  }

  lemma {:induction false} WatchAllPaths(t: Table, paths: seq<Path>, answers: seq<Answer>)
    requires |answers| == |paths|
    ensures t.paths <= WatchAll(t, paths, answers).paths <= t.paths + PathSet(paths)
    ensures AllAccepted(answers) ==> WatchAll(t, paths, answers).paths == t.paths + PathSet(paths)
  {
    if paths != [] {
      var n := |paths| - 1;
      WatchAllPaths(t, paths[..n], answers[..n]);
      PathSetFront(paths);
    }
  }

  lemma PathsAskedFor(l: LoadedConfig, p: Path)
    ensures p in WatchPaths(l) <==> AskedFor(l, p)
  {
  }

  /** After a load, good or failed, by the setting then in force: with reload off nothing is
  watched or owed; deferred, the paths asked for are owed and nothing else changes; otherwise
  nothing but them is watched, those watched before stay so whatever the system answers, and all
  of them are watched when every watch can be set up. */
  lemma LoadWatches(s: Inner, l: LoadedConfig, w: World)
    requires |w.answers| == |WatchPaths(l)|
    ensures
      var s' := Apply(s, l, w);
      var reload := if l.config.Ok? then l.config.config.automaticallyReload else s.config.automaticallyReload;
      && (!reload ==> s'.table.paths == {} && s'.pending == [])
      && (reload && s.deferred ==> s'.table == s.table && forall p :: p in s'.pending <==> AskedFor(l, p))
      && (reload && !s.deferred ==> s'.pending == [] && forall p :: p in s'.table.paths ==> AskedFor(l, p))
      && (reload && !s.deferred ==> forall p :: p in s.table.paths && AskedFor(l, p) ==> p in s'.table.paths)
      && (reload && !s.deferred && AllAccepted(w.answers) ==> forall p :: p in s'.table.paths <==> AskedFor(l, p))
  {
    forall p { PathsAskedFor(l, p); }
    WatchAllPaths(Unwatch(s.table, PathSet(WatchPaths(l)), w.stuck), WatchPaths(l), w.answers);
    hide WatchPaths, AskedFor, WatchAll;
  }

  /** What is owed is owed in order, once each: the file first, then its resolved form when that
  is another path, then the extra paths. */
  lemma OwedInOrder(s: Inner, l: LoadedConfig, w: World)
    requires |w.answers| == |WatchPaths(l)|
    requires s.deferred && Apply(s, l, w).config.automaticallyReload
    ensures
      var owed := Apply(s, l, w).pending;
      var n := |owed| - |l.luaPaths|;
      && 0 <= n <= 2 && owed[n..] == l.luaPaths
      && (n == 0 <==> l.fileName.None?)
      && (n == 2 <==> l.fileName.Some? && l.canonical.Some? && l.canonical != l.fileName)
      && (n > 0 ==> l.fileName == Some(owed[0])) && (n == 2 ==> l.canonical == Some(owed[1]))
  {
  }

  /** What else a load changes: a good one the configuration, a failed one only the message;
  the warnings either way; never the subscribers. */
  lemma LoadReplaces(s: Inner, l: LoadedConfig, w: World)
    requires |w.answers| == |WatchPaths(l)|
    ensures
      var s' := Apply(s, l, w);
      && s'.warnings == l.warnings && s'.deferred == s.deferred
      && s'.subscribers == s.subscribers && s'.nextSubscriber == s.nextSubscriber
      && (l.config.Ok? ==> s'.config == l.config.config && s'.error == None && s'.generation == s.generation + 1)
      && (l.config.Err? ==> s'.config == s.config && s'.error == Some(l.config.error) && s'.generation == s.generation)
  {
    hide Unwatch, WatchAll, WatchPaths;
  }

  /** Enabling watches what is owed, if reload is still on, and owes nothing afterwards; when
  watching was not deferred it changes nothing. */
  lemma EnableWatches(s: Inner, answers: seq<Answer>)
    requires |answers| == |s.pending|
    ensures
      var s' := Enable(s, answers);
      && (!s.deferred ==> s' == s)
      && (s.deferred ==> !s'.deferred && s'.pending == [] && s'.config == s.config && s'.generation == s.generation)
      && (s.deferred && !s.config.automaticallyReload ==> s'.table == s.table)
      && (s.deferred && s.config.automaticallyReload ==>
            s.table.paths <= s'.table.paths && forall p :: p in s'.table.paths ==> p in s.table.paths || p in s.pending)
      && (s.deferred && s.config.automaticallyReload && AllAccepted(answers) ==>
            forall p :: p in s'.table.paths <==> p in s.table.paths || p in s.pending)
  {
    WatchAllPaths(s.table, s.pending, answers);
    hide WatchAll;
  }

  // ----- Deferred watching equals eager watching -----

  /** What happens to the configuration while nothing fails and files do not come or go. */
  datatype Change = Loaded(loaded: LoadedConfig) | Replaced(config: Config)

  function Replies(paths: seq<Path>, isFile: Path -> bool): (answers: seq<Answer>)
    ensures |answers| == |paths|
  {
    seq(|paths|, i requires 0 <= i < |paths| => Answer(true, isFile(paths[i]), true))
  }

  function Quietly(s: Inner, c: Change, isFile: Path -> bool): Inner {
    match c
    case Loaded(l) => Apply(s, l, World(Replies(WatchPaths(l), isFile), {}))
    case Replaced(config) => Use(s, config)
  }

  function RunQuietly(s: Inner, changes: seq<Change>, isFile: Path -> bool): Inner {
    if changes == [] then s
    else
      var n := |changes| - 1;
      Quietly(RunQuietly(s, changes[..n], isFile), changes[n], isFile)
  }

  /** Every watched file, and nothing else, is watched through its directory. */
  ghost predicate Settled(t: Table, isFile: Path -> bool) {
    && Consistent(t)
    && (forall p :: p in t.paths ==> (p in t.files <==> isFile(p)))
    && (forall p :: p in t.files ==> t.fileToDir[p] == DirOf(p))
  }

  lemma SettledUnique(a: Table, b: Table, isFile: Path -> bool)
    requires Settled(a, isFile) && Settled(b, isFile) && a.paths == b.paths
    ensures SameWatches(a, b)
  {
    forall p ensures p in a.files <==> p in b.files {
      assert p in a.files ==> p in a.paths;
      assert p in b.files ==> p in b.paths;
    }
    assert a.fileToDir == b.fileToDir;
    CountsUnique(a.dirCount, b.dirCount, a.fileToDir);
  }

  lemma RepliesFront(paths: seq<Path>, isFile: Path -> bool)
    requires paths != []
    ensures var n := |paths| - 1;
      Replies(paths, isFile)[..n] == Replies(paths[..n], isFile) &&
      Replies(paths, isFile)[n] == Answer(true, isFile(paths[n]), true)
  {
  }

  lemma PathSetFront(paths: seq<Path>)
    requires paths != []
    ensures PathSet(paths) == PathSet(paths[..|paths| - 1]) + {paths[|paths| - 1]}
  {
    assert paths == paths[..|paths| - 1] + [paths[|paths| - 1]];
  }

  lemma WatchSettled(t: Table, p: Path, isFile: Path -> bool)
    requires Settled(t, isFile)
    ensures Settled(Watch(t, p, Answer(true, isFile(p), true)), isFile)
    ensures Watch(t, p, Answer(true, isFile(p), true)).paths == t.paths + {p}
  {
    WatchConsistent(t, p, Answer(true, isFile(p), true));
    hide CountsFiles, FilesIn, DirOf;
  }

  lemma {:induction false} WatchAllSettled(t: Table, paths: seq<Path>, isFile: Path -> bool)
    requires Settled(t, isFile)
    ensures Settled(WatchAll(t, paths, Replies(paths, isFile)), isFile)
    ensures WatchAll(t, paths, Replies(paths, isFile)).paths == t.paths + PathSet(paths)
  {
    hide Settled, Watch, Replies;
    if paths == [] {
      assert PathSet(paths) == {};
    } else {
      var n := |paths| - 1;
      WatchAllSettled(t, paths[..n], isFile);
      RepliesFront(paths, isFile);
      PathSetFront(paths);
      hide PathSet;
      WatchSettled(WatchAll(t, paths[..n], Replies(paths[..n], isFile)), paths[n], isFile);
    }
  }

  lemma UnwatchSettled(t: Table, active: set<Path>, isFile: Path -> bool)
    requires Settled(t, isFile)
    ensures Settled(Unwatch(t, active, {}), isFile)
    ensures Unwatch(t, active, {}).paths == t.paths * active
  {
    UnwatchDrops(t, active, {});
    DroppedKeeps(t, t.paths - active, {}, Unwatch(t, active, {}));
  }

  /** The deferred state owes exactly the watches that the eager state has. */
  ghost predicate Owes(eager: Inner, deferred: Inner, isFile: Path -> bool) {
    && eager.config == deferred.config && !eager.deferred && deferred.deferred
    && Settled(eager.table, isFile) && Settled(deferred.table, isFile)
    && deferred.table.paths == {} && eager.table.paths == PathSet(deferred.pending)
  }

  lemma OwesStep(eager: Inner, deferred: Inner, c: Change, isFile: Path -> bool)
    requires Owes(eager, deferred, isFile)
    ensures Owes(Quietly(eager, c, isFile), Quietly(deferred, c, isFile), isFile)
  {
    if c.Loaded? {
      var paths := WatchPaths(c.loaded);
      var active := if Quietly(eager, c, isFile).config.automaticallyReload then PathSet(paths) else {};
      UnwatchSettled(eager.table, active, isFile);
      UnwatchSettled(deferred.table, active, isFile);
      WatchAllSettled(Unwatch(eager.table, active, {}), paths, isFile);
      hide Settled, Unwatch, WatchAll;
      assert PathSet([]) == {};
    }
  }

  lemma {:induction false} OwesRun(eager: Inner, deferred: Inner, changes: seq<Change>, isFile: Path -> bool)
    requires Owes(eager, deferred, isFile)
    ensures Owes(RunQuietly(eager, changes, isFile), RunQuietly(deferred, changes, isFile), isFile)
  {
    if changes != [] {
      var n := |changes| - 1;
      OwesRun(eager, deferred, changes[..n], isFile);
      OwesStep(RunQuietly(eager, changes[..n], isFile), RunQuietly(deferred, changes[..n], isFile), changes[n], isFile);
    }
  }

  /** Deferring, going through any loads and replacements, and then enabling ends in the same
  watches as not deferring, exactly when no watches are owed or the configuration in force
  when enabling still asks for automatic reload. */
  lemma DeferredEqualsEager(s: Inner, changes: seq<Change>, isFile: Path -> bool)
    requires Consistent(s.table) && s.table.paths == {} && !s.deferred && s.pending == []
    ensures
      var eager := RunQuietly(s, changes, isFile);
      var owing := RunQuietly(s.(deferred := true), changes, isFile);
      var enabled := Enable(owing, Replies(owing.pending, isFile));
      SameWatches(eager.table, enabled.table) <==> owing.pending == [] || owing.config.automaticallyReload
  {
    OwesRun(s, s.(deferred := true), changes, isFile);
    var eager := RunQuietly(s, changes, isFile);
    var owing := RunQuietly(s.(deferred := true), changes, isFile);
    var enabled := Enable(owing, Replies(owing.pending, isFile));
    WatchAllSettled(owing.table, owing.pending, isFile);
    if owing.config.automaticallyReload || owing.pending == [] {
      assert PathSet([]) == {};
      SettledUnique(eager.table, enabled.table, isFile);
    } else {
      assert owing.pending[0] in eager.table.paths;
    }
  }

  /** In particular, any sequence of loads. */
  lemma DeferredLoadsEqualEager(s: Inner, changes: seq<Change>, isFile: Path -> bool)
    requires Consistent(s.table) && s.table.paths == {} && !s.deferred && s.pending == []
    requires forall i :: 0 <= i < |changes| ==> changes[i].Loaded?
    ensures
      var eager := RunQuietly(s, changes, isFile);
      var owing := RunQuietly(s.(deferred := true), changes, isFile);
      SameWatches(eager.table, Enable(owing, Replies(owing.pending, isFile)).table)
  {
    DeferredEqualsEager(s, changes, isFile);
  }
}
