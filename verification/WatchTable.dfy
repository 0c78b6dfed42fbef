/** The file-watch bookkeeping of the configuration: which paths are watched, through which
directory, and what is registered with the operating system. */
module WatchTable {
  import opened Options

  /** A path is its list of components; the root has none. */
  type Path = seq<string>

  function Parent(p: Path): Option<Path> {
    if p == [] then None else Some(p[..|p| - 1])
  }

  /** The directory registered for a watched file. */
  function DirOf(p: Path): Path {
    Parent(p).GetOr(p)
  }

  /** What the outside world answers during one `watch_path`: can a watcher be created, is the
  path a regular file now, and does the operating system accept the registration. */
  datatype Answer = Answer(creates: bool, isFile: bool, accepts: bool)

  /** `watcher` is absent, or holds the paths registered with the operating system. */
  datatype Table = Table(
    watcher: Option<set<Path>>,
    paths: set<Path>,
    files: set<Path>,
    fileToDir: map<Path, Path>,
    dirCount: map<Path, nat>)

  const EMPTY := Table(None, {}, {}, map[], map[])

  // ----- Reference counts -----

  function FilesIn(m: map<Path, Path>, d: Path): set<Path> {
    set f | f in m && m[f] == d
  }

  function CountOf(counts: map<Path, nat>, d: Path): nat {
    if d in counts then counts[d] else 0
  }

  ghost predicate CountsFiles(counts: map<Path, nat>, m: map<Path, Path>) {
    forall d :: (d in counts ==> counts[d] > 0) && CountOf(counts, d) == |FilesIn(m, d)|
  }

  /** The four collections fit together, and nothing is watched without a watcher. */
  ghost predicate Consistent(t: Table) {
    && t.files == t.fileToDir.Keys
    && t.files <= t.paths
    && CountsFiles(t.dirCount, t.fileToDir)
    && (t.watcher.None? ==> t.paths == {})
  }

  /** Watched paths that are registered themselves rather than through a directory. */
  function Direct(t: Table): set<Path> {
    t.paths - t.files
  }

  function Registered(t: Table): set<Path> {
    t.watcher.GetOr({})
  }

  /** The operating system watches exactly the counted directories and the direct paths. */
  ghost predicate OsExact(t: Table) {
    Registered(t) == t.dirCount.Keys + Direct(t)
  }

  ghost predicate SameWatches(a: Table, b: Table) {
    a.paths == b.paths && a.files == b.files && a.fileToDir == b.fileToDir && a.dirCount == b.dirCount
  }

  lemma FileAdded(m: map<Path, Path>, f: Path, dir: Path, d: Path)
    requires f !in m
    ensures |FilesIn(m[f := dir], d)| == |FilesIn(m, d)| + (if d == dir then 1 else 0)
  {
    if d == dir {
      assert FilesIn(m[f := dir], d) == FilesIn(m, d) + {f};
    } else {
      assert FilesIn(m[f := dir], d) == FilesIn(m, d);
    }
  }

  lemma FileRemoved(m: map<Path, Path>, f: Path, d: Path)
    requires f in m
    ensures |FilesIn(m - {f}, d)| == |FilesIn(m, d)| - (if d == m[f] then 1 else 0)
  {
    FileAdded(m - {f}, f, m[f], d);
    assert (m - {f})[f := m[f]] == m;
  }

  /** The counts are a function of the file map. */
  lemma CountsUnique(a: map<Path, nat>, b: map<Path, nat>, m: map<Path, Path>)
    requires CountsFiles(a, m) && CountsFiles(b, m)
    ensures a == b
  {
    forall d ensures d in a <==> d in b {
      assert CountOf(a, d) == CountOf(b, d);
    }
    forall d | d in a ensures a[d] == b[d] {
      assert CountOf(a, d) == CountOf(b, d);
    }
  }

  lemma CountedDirs(t: Table, d: Path)
    requires Consistent(t)
    ensures d in t.dirCount <==> exists f :: f in t.fileToDir && t.fileToDir[f] == d
  {
    assert CountOf(t.dirCount, d) == |FilesIn(t.fileToDir, d)|;
    if f :| f in t.fileToDir && t.fileToDir[f] == d {
      assert f in FilesIn(t.fileToDir, d);
    } else {
      assert FilesIn(t.fileToDir, d) == {};
    }
  }

  // ----- One path watched -----

  /** The table after `watch_path`. Whatever fails, the four collections stay as they were. */
  function Watch(t: Table, p: Path, a: Answer): Table {
    if t.watcher.None? && !a.creates then t
    else
      var t := t.(watcher := Some(Registered(t)));
      if p in t.paths then t
      else if a.isFile then
        var count := CountOf(t.dirCount, DirOf(p));
        if count == 0 && !a.accepts then t
        else Table(if count == 0 then Some(t.watcher.value + {DirOf(p)}) else t.watcher, t.paths + {p},
                   t.files + {p}, t.fileToDir[p := DirOf(p)], t.dirCount[DirOf(p) := count + 1])
      else if !a.accepts then t
      else t.(watcher := Some(t.watcher.value + {p}), paths := t.paths + {p})
  }

  lemma WatchCounts(t: Table, p: Path)
    requires CountsFiles(t.dirCount, t.fileToDir) && p !in t.fileToDir
    ensures CountsFiles(t.dirCount[DirOf(p) := CountOf(t.dirCount, DirOf(p)) + 1], t.fileToDir[p := DirOf(p)])
  {
    forall d ensures |FilesIn(t.fileToDir[p := DirOf(p)], d)| == |FilesIn(t.fileToDir, d)| + (if d == DirOf(p) then 1 else 0) {
      FileAdded(t.fileToDir, p, DirOf(p), d);
    }
  }

  lemma WatchConsistent(t: Table, p: Path, a: Answer)
    requires Consistent(t)
    ensures Consistent(Watch(t, p, a))
  {
    hide CountsFiles;
    if p !in t.fileToDir { WatchCounts(t, p); }
  }

  /** A path that did not become watched left the four collections as they were; a registration
  set that was exact stays exact, even when a direct path is also a file's directory. */
  lemma WatchExact(t: Table, p: Path, a: Answer)
    requires Consistent(t)
    ensures p !in Watch(t, p, a).paths ==> SameWatches(t, Watch(t, p, a))
    ensures OsExact(t) ==> OsExact(Watch(t, p, a))
  {
    assert CountOf(t.dirCount, DirOf(p)) != 0 <==> DirOf(p) in t.dirCount;
    hide CountsFiles, FilesIn;
    var t' := Watch(t, p, a);
    if p in t.paths || p !in t'.paths {
      assert Registered(t') == Registered(t);
    } else if a.isFile {
      assert Direct(t') == Direct(t);
      assert t'.dirCount.Keys == t.dirCount.Keys + {DirOf(p)};
      assert Registered(t') + {DirOf(p)} == Registered(t) + {DirOf(p)};
    } else {
      assert Direct(t') == Direct(t) + {p};
      assert Registered(t') == Registered(t) + {p};
    }
  }

  /** A new path that the system accepts is watched: a file through the path that its name is
  cut from, anything else by itself. */
  lemma AcceptedIsWatched(t: Table, dir: Path, name: string, isFile: bool)
    requires Consistent(t) && OsExact(t) && dir + [name] !in t.paths
    ensures
      var p := dir + [name];
      var t' := Watch(t, p, Answer(true, isFile, true));
      && p in t'.paths && (p in t'.files <==> isFile)
      && (isFile ==> p in t'.fileToDir && t'.fileToDir[p] == dir && dir in Registered(t'))
      && (!isFile ==> p in Registered(t'))
      && (isFile ==> dir in t'.dirCount && t'.dirCount[dir] == CountOf(t.dirCount, dir) + 1)
  {
    hide CountsFiles, FilesIn;
    assert DirOf(dir + [name]) == dir;
    WatchExact(t, dir + [name], Answer(true, isFile, true));
  }

  /** When a path ends up watched: it was already, or there is or can be a watcher and the system
  accepts it, or it is a file next to a file that is watched. */
  lemma WatchedIff(t: Table, dir: Path, name: string, a: Answer)
    requires Consistent(t)
    ensures
      var p := dir + [name];
      var beside := a.isFile && exists f :: f in t.fileToDir && t.fileToDir[f] == dir;
      && (p in Watch(t, p, a).paths <==> p in t.paths || ((t.watcher.Some? || a.creates) && (a.accepts || beside)))
      && t.paths <= Watch(t, p, a).paths <= t.paths + {p}
  {
    assert DirOf(dir + [name]) == dir;
    CountedDirs(t, dir);
    assert CountOf(t.dirCount, dir) != 0 <==> dir in t.dirCount;
    hide CountsFiles, FilesIn;
  }

  /** The root is its own directory. */
  lemma RootIsItsDirectory()
    ensures DirOf([]) == []
  {
  }

  // ----- Stale paths dropped -----

  /** `t'` is `t` with the paths of `gone` no longer watched; unwatching fails for the paths
  in `stuck`, which then stay registered. */
  ghost predicate Dropped(t: Table, gone: set<Path>, stuck: set<Path>, t': Table) {
    && t'.paths == t.paths - gone
    && t'.files == t.files - gone
    && t'.fileToDir == t.fileToDir - gone
    && CountsFiles(t'.dirCount, t'.fileToDir)
    && t'.watcher.Some? == t.watcher.Some?
    && Registered(t') == Registered(t) - (Released(t, gone, t') - stuck)
  }

  /** The directories whose last file went, and the direct paths that went. */
  ghost function Released(t: Table, gone: set<Path>, t': Table): set<Path> {
    (t.dirCount.Keys - t'.dirCount.Keys) + (Direct(t) * gone)
  }

  /** Dropping paths is determined by which paths go. */
  lemma DroppedUnique(t: Table, gone: set<Path>, stuck: set<Path>, a: Table, b: Table)
    requires Dropped(t, gone, stuck, a) && Dropped(t, gone, stuck, b)
    ensures a == b
  {
    CountsUnique(a.dirCount, b.dirCount, a.fileToDir);
  }

  lemma DroppedKeeps(t: Table, gone: set<Path>, stuck: set<Path>, t': Table)
    requires Consistent(t) && Dropped(t, gone, stuck, t')
    ensures Consistent(t')
  {
  }

  /** One stale path dropped, as the loop does it. */
  function DropPath(t: Table, p: Path, stuck: set<Path>): Table {
    if p in t.fileToDir then
      var dir := t.fileToDir[p];
      var count := CountOf(t.dirCount, dir) - 1;
      t.(paths := t.paths - {p}, files := t.files - {p}, fileToDir := t.fileToDir - {p},
         dirCount := if count > 0 then t.dirCount[dir := count] else t.dirCount - {dir},
         watcher := if count > 0 then t.watcher else Unregister(t.watcher, dir, stuck))
    else
      t.(paths := t.paths - {p}, watcher := Unregister(t.watcher, p, stuck))
  }

  function Unregister(w: Option<set<Path>>, p: Path, stuck: set<Path>): Option<set<Path>> {
    if w.Some? && p !in stuck then Some(w.value - {p}) else w
  }

  lemma DropCounts(t: Table, p: Path, stuck: set<Path>)
    requires CountsFiles(t.dirCount, t.fileToDir) && p in t.fileToDir
    ensures CountsFiles(DropPath(t, p, stuck).dirCount, t.fileToDir - {p})
    ensures t.fileToDir[p] in t.dirCount
  {
    var t' := DropPath(t, p, stuck);
    var dir := t.fileToDir[p];
    FileRemoved(t.fileToDir, p, dir);
    assert CountOf(t.dirCount, dir) == |FilesIn(t.fileToDir, dir)|;
    forall d ensures |FilesIn(t.fileToDir - {p}, d)| == |FilesIn(t.fileToDir, d)| - (if d == dir then 1 else 0) {
      FileRemoved(t.fileToDir, p, d);
    }
  }

  lemma DirsShrink(t: Table, gone: set<Path>, d: Path)
    requires CountsFiles(t.dirCount, t.fileToDir)
    ensures |FilesIn(t.fileToDir - gone, d)| > 0 ==> d in t.dirCount
  {
    if |FilesIn(t.fileToDir - gone, d)| > 0 {
      var f :| f in FilesIn(t.fileToDir - gone, d);
      assert f in FilesIn(t.fileToDir, d);
      assert CountOf(t.dirCount, d) == |FilesIn(t.fileToDir, d)|;
    }
  }

  lemma DropDirect(t0: Table, gone: set<Path>, stuck: set<Path>, t: Table, p: Path)
    requires Consistent(t0) && Dropped(t0, gone, stuck, t) && p in t.paths && p !in t.fileToDir
    ensures Dropped(t0, gone + {p}, stuck, DropPath(t, p, stuck))
  {
    hide CountsFiles, FilesIn;
    var t' := DropPath(t, p, stuck);
    assert p in Direct(t0);
    assert Direct(t0) * (gone + {p}) == Direct(t0) * gone + {p};
    assert Released(t0, gone + {p}, t') == Released(t0, gone, t) + {p};
    assert t'.fileToDir == t0.fileToDir - (gone + {p});
  }

  lemma DropFile(t0: Table, gone: set<Path>, stuck: set<Path>, t: Table, p: Path)
    requires Consistent(t0) && Dropped(t0, gone, stuck, t) && p in t.paths && p in t.fileToDir
    ensures Dropped(t0, gone + {p}, stuck, DropPath(t, p, stuck))
  {
    var t' := DropPath(t, p, stuck);
    var dir := t.fileToDir[p];
    DropCounts(t, p, stuck);
    DirsShrink(t0, gone, dir);
    assert CountOf(t.dirCount, dir) == |FilesIn(t.fileToDir, dir)|;
    hide CountsFiles, FilesIn;
    assert t'.fileToDir == t0.fileToDir - (gone + {p});
    assert Direct(t0) * (gone + {p}) == Direct(t0) * gone;
    if t.dirCount[dir] == 1 {
      assert Released(t0, gone + {p}, t') == Released(t0, gone, t) + {dir};
    } else {
      assert t'.dirCount.Keys == t.dirCount.Keys;
    }
  }

  /** Dropping the paths one by one, in whatever order, drops the set. */
  lemma DropOneMore(t0: Table, gone: set<Path>, stuck: set<Path>, t: Table, p: Path)
    requires Consistent(t0) && Dropped(t0, gone, stuck, t) && p in t.paths
    ensures Dropped(t0, gone + {p}, stuck, DropPath(t, p, stuck))
  {
    hide Dropped, DropPath;
    if p in t.fileToDir {
      DropFile(t0, gone, stuck, t, p);
    } else {
      DropDirect(t0, gone, stuck, t, p);
    }
  }

  /** When unwatching succeeds, the registrations stay exact if and only if no path that goes
  as a direct watch is still a counted directory, and no directory that loses its last file is
  still watched directly. */
  lemma DroppedExactness(t: Table, gone: set<Path>, t': Table)
    requires Consistent(t) && OsExact(t) && Dropped(t, gone, {}, t')
    ensures OsExact(t') <==>
      && (forall p :: p in Direct(t) * gone ==> !exists f :: f in t.files - gone && t.fileToDir[f] == p)
      && (forall p :: p in Direct(t) - gone ==>
            (exists f :: f in t.files && t.fileToDir[f] == p) ==> exists f :: f in t.files - gone && t.fileToDir[f] == p)
  {
    DroppedKeeps(t, gone, {}, t');
    forall d
      ensures d in t.dirCount <==> exists f :: f in t.files && t.fileToDir[f] == d
      ensures d in t'.dirCount <==> exists f :: f in t.files - gone && t.fileToDir[f] == d
    {
      CountedDirs(t, d);
      CountedDirs(t', d);
      assert forall f :: f in t.files - gone <==> f in t'.fileToDir;
    }
    assert Direct(t') == Direct(t) - gone;
    var released := Released(t, gone, t');
    assert Registered(t') == Registered(t) - released;
    assert t'.dirCount.Keys <= t.dirCount.Keys by {
      forall d | d in t'.dirCount ensures d in t.dirCount {}
    }
    assert OsExact(t') <==> released !! t'.dirCount.Keys + Direct(t');
  }

  /** In particular they stay exact while no direct path is also a watched file's directory. */
  lemma DroppedExact(t: Table, gone: set<Path>, t': Table)
    requires Consistent(t) && OsExact(t) && Dropped(t, gone, {}, t')
    requires Direct(t) !! t.dirCount.Keys
    ensures OsExact(t') && Direct(t') !! t'.dirCount.Keys
  {
    DroppedKeeps(t, gone, {}, t');
    forall d | d in t'.dirCount ensures d in t.dirCount {
      CountedDirs(t, d);
      CountedDirs(t', d);
    }
  }

  // ----- The same as functions -----

  function Counts(m: map<Path, Path>): map<Path, nat> {
    map d | d in m.Values :: |FilesIn(m, d)|
  }

  lemma CountsAreRight(m: map<Path, Path>)
    ensures CountsFiles(Counts(m), m)
  {
    forall d ensures (d in Counts(m) ==> Counts(m)[d] > 0) && CountOf(Counts(m), d) == |FilesIn(m, d)| {
      if d in m.Values {
        var f :| f in m && m[f] == d;
        assert f in FilesIn(m, d);
      } else {
        assert FilesIn(m, d) == {};
      }
    }
  }

  function Unwatch(t: Table, active: set<Path>, stuck: set<Path>): Table {
    var gone := t.paths - active;
    var counts := Counts(t.fileToDir - gone);
    Table(if t.watcher.None? then None
          else Some(t.watcher.value - ((t.dirCount.Keys - counts.Keys) + (Direct(t) * gone) - stuck)),
          t.paths - gone, t.files - gone, t.fileToDir - gone, counts)
  }

  lemma UnwatchDrops(t: Table, active: set<Path>, stuck: set<Path>)
    ensures Dropped(t, t.paths - active, stuck, Unwatch(t, active, stuck))
  {
    CountsAreRight(t.fileToDir - (t.paths - active));
  }

  /** The paths of a reload are watched in order. */
  function WatchAll(t: Table, paths: seq<Path>, answers: seq<Answer>): Table
    requires |answers| == |paths|
  {
    if paths == [] then t
    else
      var n := |paths| - 1;
      Watch(WatchAll(t, paths[..n], answers[..n]), paths[n], answers[n])
  }

  lemma {:induction false} WatchAllKeeps(t: Table, paths: seq<Path>, answers: seq<Answer>)
    requires |answers| == |paths| && Consistent(t)
    ensures Consistent(WatchAll(t, paths, answers))
    ensures OsExact(t) ==> OsExact(WatchAll(t, paths, answers))
  {
    if paths != [] {
      var n := |paths| - 1;
      WatchAllKeeps(t, paths[..n], answers[..n]);
      var before := WatchAll(t, paths[..n], answers[..n]);
      WatchConsistent(before, paths[n], answers[n]);
      WatchExact(before, paths[n], answers[n]);
    }
  }
}
