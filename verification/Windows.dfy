/** Which window shows which mux window after the active workspace changes. */
module Windows {
  import opened Options
  import opened SortedKeys

  /** Windows are ordered by their handles, and visited in that order. */
  type Window = nat
  type MuxId = nat

  datatype Change = SwitchTo(window: Window, muxId: MuxId) | Close(window: Window)

  function Remove(ids: seq<MuxId>, i: nat): seq<MuxId>
    requires i < |ids|
  {
    ids[..i] + ids[i + 1..]
  }

  ghost predicate Distinct(ids: seq<MuxId>) {
    forall i, j :: 0 <= i < j < |ids| ==> ids[i] != ids[j]
  }

  /** The window is the first to show an id that is wanted. */
  ghost predicate Keeps(known: map<Window, MuxId>, mux: seq<MuxId>, w: Window) {
    w in known && known[w] in mux && forall x :: x in known && x < w ==> known[x] != known[w]
  }

  /** The ids not taken, in order. */
  function Free(mux: seq<MuxId>, taken: set<MuxId>): seq<MuxId> {
    if mux == [] then []
    else
      var n := |mux| - 1;
      if mux[n] in taken then Free(mux[..n], taken) else Free(mux[..n], taken) + [mux[n]]
  }

  function Min(a: nat, b: nat): nat {
    if a < b then a else b
  }

  lemma {:induction false} FreeMembers(mux: seq<MuxId>, taken: set<MuxId>)
    ensures forall id :: id in Free(mux, taken) <==> id in mux && id !in taken
    ensures Distinct(mux) ==> Distinct(Free(mux, taken))
  {
    if mux != [] {
      var n := |mux| - 1;
      FreeMembers(mux[..n], taken);
      assert mux == mux[..n] + [mux[n]];
      if Distinct(mux) {
        forall i | 0 <= i < |Free(mux[..n], taken)| ensures Free(mux[..n], taken)[i] != mux[n] {
          assert Free(mux[..n], taken)[i] in Free(mux[..n], taken);
        }
      }
    }
  }

  /** The free ids stand in the order of the wanted ones: `at` are their positions there. */
  lemma {:induction false} FreeInOrder(mux: seq<MuxId>, taken: set<MuxId>) returns (at: seq<nat>)
    ensures PickedAt(mux, at, Free(mux, taken))
    ensures forall j :: 0 <= j < |mux| ==> (Has(at, j) <==> mux[j] !in taken)
  {
    at := [];
    if mux != [] {
      var n := |mux| - 1;
      var free, take := Free(mux[..n], taken), mux[n] !in taken;
      assert Free(mux, taken) == if take then free + [mux[n]] else free;
      hide PickedAt, Has, Free;
      var earlier := FreeInOrder(mux[..n], taken);
      at := PickOneMore(mux, earlier, free, take);
      forall j | 0 <= j < |mux| ensures Has(at, j) <==> mux[j] !in taken {
        if j < n { assert Has(earlier, j) <==> mux[..n][j] !in taken; }
      }
    }
  }

  lemma {:induction false} FreeNothing(mux: seq<MuxId>)
    ensures Free(mux, {}) == mux
  {
    if mux != [] { FreeNothing(mux[..|mux| - 1]); }
  }

  /** Taking one more id is removing it from the free ones. */
  lemma {:induction false} FreeTake(mux: seq<MuxId>, taken: set<MuxId>, i: nat)
    requires Distinct(mux) && i < |Free(mux, taken)|
    ensures Remove(Free(mux, taken), i) == Free(mux, taken + {Free(mux, taken)[i]})
  {
    var n := |mux| - 1;
    var front, id := Free(mux[..n], taken), Free(mux, taken)[i];
    FreeMembers(mux[..n], taken);
    if i < |front| {
      assert front[i] in front;
      FreeTake(mux[..n], taken, i);
      if mux[n] !in taken {
        assert Remove(front + [mux[n]], i) == Remove(front, i) + [mux[n]];
      }
    } else {
      FreeUnchanged(mux[..n], taken, id);
      assert Remove(front + [mux[n]], i) == front;
    }
  }

  lemma {:induction false} FreeUnchanged(mux: seq<MuxId>, taken: set<MuxId>, id: MuxId)
    requires id !in mux
    ensures Free(mux, taken + {id}) == Free(mux, taken)
  {
    if mux != [] {
      assert mux[|mux| - 1] in mux;
      FreeUnchanged(mux[..|mux| - 1], taken, id);
    }
  }

  // ----- The outcome -----

  /** The ids that stay where they are. */
  ghost function KeptIds(known: map<Window, MuxId>, mux: seq<MuxId>): set<MuxId> {
    set w | w in known && Keeps(known, mux, w) :: known[w]
  }

  /** Windows that show a wanted id first keep it; the others, `unused`, in order of their handles
  take the ids still free, in order, as far as those go. */
  ghost predicate Outcome(known: map<Window, MuxId>, mux: seq<MuxId>, windows: map<Window, MuxId>, unused: seq<Window>) {
    var free := Free(mux, KeptIds(known, mux));
    var n := Min(|unused|, |free|);
    && Ascending(unused) && (forall w :: w in unused <==> w in known && !Keeps(known, mux, w))
    && (forall w :: w in windows <==> Keeps(known, mux, w) || w in unused[..n])
    && (forall w :: Keeps(known, mux, w) ==> windows[w] == known[w])
    && (forall i :: 0 <= i < n ==> windows[unused[i]] == free[i])
  }

  ghost predicate Injective(m: map<Window, MuxId>) {
    forall a, b :: a in m && b in m && a != b ==> m[a] != m[b]
  }

  lemma OutcomeMatches(known: map<Window, MuxId>, mux: seq<MuxId>, windows: map<Window, MuxId>, unused: seq<Window>)
    requires Distinct(mux) && Outcome(known, mux, windows, unused)
    ensures Injective(windows) && forall w :: w in windows ==> windows[w] in mux
  {
    var kept := KeptIds(known, mux);
    var free := Free(mux, kept);
    var n := Min(|unused|, |free|);
    FreeMembers(mux, kept);
    forall w | w in windows
      ensures if Keeps(known, mux, w) then windows[w] in kept && windows[w] in mux
              else exists i :: 0 <= i < n && w == unused[i] && windows[w] == free[i] && free[i] in free
    {
      if Keeps(known, mux, w) {
        assert w in known;
      } else {
        var i :| 0 <= i < n && unused[..n][i] == w;
        assert w == unused[i] && free[i] in free;
      }
    }
    forall a, b | Keeps(known, mux, a) && Keeps(known, mux, b) && a != b ensures known[a] != known[b] {
      assert a < b || b < a;
    }
    hide Keeps, KeptIds, Free, Min;
  }

  /** A second run with the same mux windows keeps every window as it is. */
  lemma SecondRunIsIdle(known: map<Window, MuxId>, mux: seq<MuxId>, windows: map<Window, MuxId>, unused: seq<Window>,
      windows': map<Window, MuxId>, unused': seq<Window>)
    requires Distinct(mux) && Outcome(known, mux, windows, unused) && Outcome(windows, mux, windows', unused')
    ensures unused' == [] && windows' == windows
  {
    OutcomeMatches(known, mux, windows, unused);
    AllKept(windows, mux, windows', unused');
  }

  lemma AllKept(known: map<Window, MuxId>, mux: seq<MuxId>, windows: map<Window, MuxId>, unused: seq<Window>)
    requires Injective(known) && (forall w :: w in known ==> known[w] in mux)
    requires Outcome(known, mux, windows, unused)
    ensures unused == [] && windows == known
  {
    forall w ensures w in known <==> Keeps(known, mux, w) {}
    if unused != [] {
      SomeMember(unused);
    } else {
      assert unused[..0] == [];
      assert windows.Keys == known.Keys;
    }
  }

  // ----- The algorithm -----

  /** An id that is wanted is kept by its first holder. */
  lemma {:induction false} FirstHolder(known: map<Window, MuxId>, mux: seq<MuxId>, x: Window)
    requires x in known && known[x] in mux
    ensures exists y: nat :: y <= x && Keeps(known, mux, y) && known[y] == known[x]
  {
    if !Keeps(known, mux, x) {
      var z :| z in known && z < x && known[z] == known[x];
      FirstHolder(known, mux, z);
    }
  }

  /** The windows before those of `rest` have been visited. */
  ghost predicate Visiting(known: map<Window, MuxId>, rest: set<Window>) {
    rest <= known.Keys && forall x, y :: x in known && x !in rest && y in rest ==> x < y
  }

  ghost predicate KeptOnes(known: map<Window, MuxId>, mux: seq<MuxId>, rest: set<Window>, windows: map<Window, MuxId>) {
    && (forall w :: w in windows <==> w in known && w !in rest && Keeps(known, mux, w))
    && (forall w :: w in windows ==> windows[w] == known[w])
  }

  ghost predicate OtherOnes(known: map<Window, MuxId>, mux: seq<MuxId>, rest: set<Window>, unused: seq<Window>) {
    Ascending(unused) && forall w :: w in unused <==> w in known && w !in rest && !Keeps(known, mux, w)
  }

  ghost predicate Counted(known: map<Window, MuxId>, mux: seq<MuxId>, rest: set<Window>,
      windows: map<Window, MuxId>, unused: seq<Window>, left: seq<MuxId>)
  {
    && left == Free(mux, windows.Values)
    && |windows| + |unused| + |rest| == |known| && |windows| + |left| == |mux|
  }

  /** The visited windows are sorted into those that keep their id and the others. */
  ghost predicate Sorting(known: map<Window, MuxId>, mux: seq<MuxId>, rest: set<Window>,
      windows: map<Window, MuxId>, unused: seq<Window>, left: seq<MuxId>)
  {
    && Visiting(known, rest) && KeptOnes(known, mux, rest, windows) && OtherOnes(known, mux, rest, unused)
    && Counted(known, mux, rest, windows, unused, left)
  }

  lemma VisitNext(known: map<Window, MuxId>, rest: set<Window>, w: Window)
    requires Visiting(known, rest) && w in rest && forall x :: x in rest ==> w <= x
    ensures Visiting(known, rest - {w}) && forall x :: x in known && x < w ==> x !in rest
  {
  }

  /** A wanted id that a visited window shows has been taken. */
  lemma TakenBefore(known: map<Window, MuxId>, mux: seq<MuxId>, rest: set<Window>, windows: map<Window, MuxId>, x: Window)
    requires Visiting(known, rest) && KeptOnes(known, mux, rest, windows)
    requires x in known && x !in rest && known[x] in mux
    ensures known[x] in windows.Values
  {
    FirstHolder(known, mux, x);
    var y: nat :| y <= x && Keeps(known, mux, y) && known[y] == known[x];
    assert windows[y] == known[x];
  }

  lemma WantedIsKept(known: map<Window, MuxId>, mux: seq<MuxId>, rest: set<Window>,
      windows: map<Window, MuxId>, left: seq<MuxId>, w: Window)
    requires Visiting(known, rest) && KeptOnes(known, mux, rest, windows) && left == Free(mux, windows.Values)
    requires w in rest && forall x :: x in rest ==> w <= x
    ensures known[w] in left <==> Keeps(known, mux, w)
  {
    FreeMembers(mux, windows.Values);
    forall x | x in known && x < w && known[x] in mux ensures known[x] in windows.Values {
      TakenBefore(known, mux, rest, windows, x);
    }
  }

  lemma ValuesAdded(m: map<Window, MuxId>, w: Window, id: MuxId)
    requires w !in m
    ensures m[w := id].Values == m.Values + {id}
  {
    var more := m[w := id];
    forall x | x in m.Values + {id} ensures x in more.Values {
      if x == id {
        assert more[w] == id;
      } else {
        var y :| y in m && m[y] == x;
        assert more[y] == x;
      }
    }
  }

  lemma SortKept(known: map<Window, MuxId>, mux: seq<MuxId>, rest: set<Window>,
      windows: map<Window, MuxId>, unused: seq<Window>, left: seq<MuxId>, w: Window, i: nat)
    requires Distinct(mux) && Sorting(known, mux, rest, windows, unused, left)
    requires w in rest && forall x :: x in rest ==> w <= x
    requires i < |left| && left[i] == known[w]
    ensures Sorting(known, mux, rest - {w}, windows[w := known[w]], unused, Remove(left, i))
  {
    WantedIsKept(known, mux, rest, windows, left, w);
    VisitNext(known, rest, w);
    hide Keeps, Free, Visiting, Distinct;
    assert KeptOnes(known, mux, rest - {w}, windows[w := known[w]]);
    assert OtherOnes(known, mux, rest - {w}, unused);
    assert w !in windows;
    hide KeptOnes, OtherOnes;
    FreeTake(mux, windows.Values, i);
    ValuesAdded(windows, w, known[w]);
  }

  lemma SortUnused(known: map<Window, MuxId>, mux: seq<MuxId>, rest: set<Window>,
      windows: map<Window, MuxId>, unused: seq<Window>, left: seq<MuxId>, w: Window)
    requires Sorting(known, mux, rest, windows, unused, left)
    requires w in rest && forall x :: x in rest ==> w <= x
    requires known[w] !in left
    ensures Sorting(known, mux, rest - {w}, windows, unused + [w], left)
  {
    WantedIsKept(known, mux, rest, windows, left, w);
    VisitNext(known, rest, w);
    assert forall x :: x in unused ==> x < w;
    AscendingPush(unused, w);
    hide Keeps, Free, Visiting;
    assert KeptOnes(known, mux, rest - {w}, windows);
    assert OtherOnes(known, mux, rest - {w}, unused + [w]);
  }

  lemma SortingDone(known: map<Window, MuxId>, mux: seq<MuxId>, windows: map<Window, MuxId>, unused: seq<Window>, left: seq<MuxId>)
    requires Sorting(known, mux, {}, windows, unused, left)
    ensures left == Free(mux, KeptIds(known, mux))
  {
    assert windows.Values == KeptIds(known, mux) by {
      forall id ensures id in windows.Values <==> id in KeptIds(known, mux) {
        if id in windows.Values { var w :| w in windows && windows[w] == id; }
        if id in KeptIds(known, mux) {
          var w :| w in known && Keeps(known, mux, w) && known[w] == id;
          assert windows[w] == id;
        }
      }
    }
  }

  method Position(ids: seq<MuxId>, id: MuxId) returns (r: Option<nat>)
    ensures r.Some? ==> r.value < |ids| && ids[r.value] == id
    ensures r.None? ==> id !in ids
  {
    for i := 0 to |ids|
      invariant id !in ids[..i]
    {
      if ids[i] == id {
        return Some(i);
      }
      assert ids[..i + 1] == ids[..i] + [ids[i]];
    }
    assert ids[..|ids|] == ids;
    return None;
  }

  class GuiFrontEnd {
    var knownWindows: map<Window, MuxId>
    var spawnedMuxWindow: set<MuxId>

    constructor (known: map<Window, MuxId>, spawned: set<MuxId>)
      ensures knownWindows == known && spawnedMuxWindow == spawned
    {
      knownWindows, spawnedMuxWindow := known, spawned;
    }

    /** First pass: the windows that already show a wanted id keep it. */
    static method KeepWindows(known: map<Window, MuxId>, mux: seq<MuxId>)
      returns (windows: map<Window, MuxId>, unused: seq<Window>, left: seq<MuxId>)
      requires Distinct(mux)
      ensures Ascending(unused) && forall w :: w in unused <==> w in known && !Keeps(known, mux, w)
      ensures forall w :: w in windows <==> Keeps(known, mux, w)
      ensures forall w :: w in windows ==> w in known && windows[w] == known[w]
      ensures left == Free(mux, KeptIds(known, mux))
      ensures |windows| + |unused| == |known| && |windows| + |left| == |mux|
    {
      windows, unused, left := map[], [], mux;
      var rest := known.Keys;
      FreeNothing(mux);
      assert windows.Values == {};
      while rest != {}
        invariant Sorting(known, mux, rest, windows, unused, left)
        decreases |rest|
      {
        hide Sorting, Keeps;
        SortingInKnown(known, mux, rest, windows, unused, left);
        var window := SmallestKey(rest);
        var id := known[window];
        var idx := Position(left, id);
        if idx.Some? {
          SortKept(known, mux, rest, windows, unused, left, window, idx.value);
          windows := windows[window := id];
          left := Remove(left, idx.value);
        } else {
          SortUnused(known, mux, rest, windows, unused, left, window);
          unused := unused + [window];
        }
        rest := rest - {window};
      }
      SortingDone(known, mux, windows, unused, left);
    }

    /** Second pass: the other windows switch to the ids left over, or close. */
    method SwitchOrClose(known: map<Window, MuxId>, kept: map<Window, MuxId>, unused: seq<Window>, left: seq<MuxId>)
      returns (windows: map<Window, MuxId>, changes: seq<Change>, toSpawn: seq<MuxId>)
      requires Ascending(unused) && forall i :: 0 <= i < |unused| ==> unused[i] in known && unused[i] !in kept
      modifies this`spawnedMuxWindow
      ensures Placed(kept, unused, left, Min(|unused|, |left|), windows)
      ensures changes == Changes(unused, left, |unused|) && toSpawn == left[Min(|unused|, |left|)..]
      ensures spawnedMuxWindow == old(spawnedMuxWindow) - ClosedIds(known, unused, |left|, |unused|)
    {
      windows, changes := kept, [];
      var next := 0;
      NothingPlaced(known, kept, unused, left);
      hide Placed, Changes, ClosedIds, Ascending;
      for i := 0 to |unused|
        invariant next == Min(i, |left|) && Placed(kept, unused, left, next, windows)
        invariant changes == Changes(unused, left, i)
        invariant spawnedMuxWindow == old(spawnedMuxWindow) - ClosedIds(known, unused, |left|, i)
      {
        var window := unused[i];
        ClosedIdsNext(known, unused, |left|, i);
        ChangesNext(unused, left, i);
        if next < |left| {
          PlaceNext(kept, unused, left, next, windows);
          changes := changes + [SwitchTo(window, left[next])];
          windows := windows[window := left[next]];
          next := next + 1;
        } else {
          changes := changes + [Close(window)];
          spawnedMuxWindow := spawnedMuxWindow - {known[window]};
        }
      }
      toSpawn := left[next..];
    }

    method ReconcileWorkspace(mux: seq<MuxId>) returns (changes: seq<Change>, toSpawn: seq<MuxId>, ghost unused: seq<Window>)
      requires Distinct(mux)
      modifies this
      ensures Outcome(old(knownWindows), mux, knownWindows, unused)
      ensures |knownWindows| == Min(|old(knownWindows)|, |mux|)
      ensures forall i :: 0 <= i < |unused| ==> unused[i] in old(knownWindows)
      ensures var free := Free(mux, KeptIds(old(knownWindows), mux));
        && toSpawn == free[Min(|unused|, |free|)..]
        && changes == Changes(unused, free, |unused|)
        && spawnedMuxWindow == old(spawnedMuxWindow) - ClosedIds(old(knownWindows), unused, |free|, |unused|)
    {
      var known := knownWindows;
      knownWindows := map[];
      var windows, others, left := KeepWindows(known, mux);
      unused := others;
      ghost var kept := windows;
      forall i | 0 <= i < |others| ensures others[i] in known && others[i] !in kept { assert others[i] in others; }
      windows, changes, toSpawn := SwitchOrClose(known, windows, others, left);
      PlacedOutcome(known, mux, kept, others, windows);
      knownWindows := windows;
    }
  }

  /** The first `n` unused windows have taken the first `n` free ids. */
  ghost predicate Placed(kept: map<Window, MuxId>, unused: seq<Window>, free: seq<MuxId>, n: nat, windows: map<Window, MuxId>) {
    && n <= |unused| && n <= |free| && |windows| == |kept| + n
    && (forall w :: w in windows <==> w in kept || w in unused[..n])
    && (forall w :: w in kept ==> w in windows && windows[w] == kept[w])
    && (forall i :: 0 <= i < n ==> unused[i] in windows && windows[unused[i]] == free[i])
  }

  lemma PlacedKeys(kept: map<Window, MuxId>, unused: seq<Window>, n: nat, windows: map<Window, MuxId>, id: MuxId)
    requires n < |unused| && forall w :: w in windows <==> w in kept || w in unused[..n]
    ensures forall w :: w in windows[unused[n] := id] <==> w in kept || w in unused[..n + 1]
  {
    assert unused[..n + 1] == unused[..n] + [unused[n]];
  }

  lemma PlacedIds(unused: seq<Window>, free: seq<MuxId>, n: nat, windows: map<Window, MuxId>)
    requires Ascending(unused) && n < |unused| && n < |free|
    requires forall i :: 0 <= i < n ==> unused[i] in windows && windows[unused[i]] == free[i]
    ensures var windows' := windows[unused[n] := free[n]];
      forall i :: 0 <= i < n + 1 ==> unused[i] in windows' && windows'[unused[i]] == free[i]
  {
  }

  lemma PlaceNext(kept: map<Window, MuxId>, unused: seq<Window>, free: seq<MuxId>, n: nat, windows: map<Window, MuxId>)
    requires Placed(kept, unused, free, n, windows) && n < |unused| && n < |free|
    requires Ascending(unused) && unused[n] !in kept
    ensures Placed(kept, unused, free, n + 1, windows[unused[n] := free[n]])
  {
    AscendingNew(unused, n);
    PlacedKeys(kept, unused, n, windows, free[n]);
    PlacedIds(unused, free, n, windows);
    assert unused[n] !in windows;
    hide Ascending;
  }

  lemma PlacedOutcome(known: map<Window, MuxId>, mux: seq<MuxId>, kept: map<Window, MuxId>, unused: seq<Window>, windows: map<Window, MuxId>)
    requires Ascending(unused) && forall w :: w in unused <==> w in known && !Keeps(known, mux, w)
    requires forall w :: w in kept <==> Keeps(known, mux, w)
    requires forall w :: w in kept ==> w in known && kept[w] == known[w]
    requires var free := Free(mux, KeptIds(known, mux)); Placed(kept, unused, free, Min(|unused|, |free|), windows)
    ensures Outcome(known, mux, windows, unused)
  {
    hide Keeps, Free;
  }

  lemma SortingInKnown(known: map<Window, MuxId>, mux: seq<MuxId>, rest: set<Window>,
      windows: map<Window, MuxId>, unused: seq<Window>, left: seq<MuxId>)
    requires Sorting(known, mux, rest, windows, unused, left)
    ensures rest <= known.Keys
  {
  }

  /** What the first `n` unused windows are told. */
  function Changes(unused: seq<Window>, free: seq<MuxId>, n: nat): seq<Change>
    requires n <= |unused|
  {
    seq(n, i requires 0 <= i < n => if i < |free| then SwitchTo(unused[i], free[i]) else Close(unused[i]))
  }

  /** The ids shown by those of the first `n` unused windows that close. */
  ghost function ClosedIds(known: map<Window, MuxId>, unused: seq<Window>, free: nat, n: nat): set<MuxId>
    requires n <= |unused| && forall i :: 0 <= i < n ==> unused[i] in known
  {
    set i | free <= i < n :: known[unused[i]]
  }

  lemma NothingPlaced(known: map<Window, MuxId>, kept: map<Window, MuxId>, unused: seq<Window>, free: seq<MuxId>)
    ensures Placed(kept, unused, free, 0, kept) && Changes(unused, free, 0) == [] && ClosedIds(known, unused, |free|, 0) == {}
  {
  }

  lemma ChangesNext(unused: seq<Window>, free: seq<MuxId>, n: nat)
    requires n < |unused|
    ensures Changes(unused, free, n + 1) ==
      Changes(unused, free, n) + [if n < |free| then SwitchTo(unused[n], free[n]) else Close(unused[n])]
  {
  }

  lemma ClosedIdsNext(known: map<Window, MuxId>, unused: seq<Window>, free: nat, n: nat)
    requires n < |unused| && forall i :: 0 <= i <= n ==> unused[i] in known
    ensures ClosedIds(known, unused, free, n + 1) ==
      ClosedIds(known, unused, free, n) + (if n < free then {} else {known[unused[n]]})
  {
  }
}
