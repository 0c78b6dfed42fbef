/** What the conversation store keeps over whole runs: with crashes, an index that can always be
recovered from; without them, an index that agrees with the files. */
module ConversationRuns {
  import opened Options
  import opened Eviction
  import opened Conversations

  datatype Op =
    | EnsureActive(freshId: Id)
    | StartNew(freshId: Id)
    | Save(id: Id, messages: seq<Message>)
    | Switch(target: Id)
    | Summarize(id: Id, summary: string)

  function WritesOf(d: Disk, op: Op, now: int): seq<Write> {
    match op
    case EnsureActive(id) => EnsureActiveWrites(d, id, now)
    case StartNew(id) => NewActiveWrites(d, id, now)
    case Save(id, messages) => SaveWrites(d, id, messages, now)
    case Switch(target) => SwitchWrites(d, target)
    case Summarize(id, summary) => UpdateSummaryWrites(d, id, summary)
  }

  function List(d: Disk): seq<Meta> {
    IndexOf(d).conversations
  }

  ghost predicate FreshId(d: Disk, id: Id) {
    id !in IdsOf(List(d)) && id !in d.files
  }

  /** New ids are new, and only listed conversations are switched to. */
  ghost predicate Proper(d: Disk, op: Op) {
    match op
    case EnsureActive(id) => FreshId(d, id)
    case StartNew(id) => FreshId(d, id)
    case Switch(target) => target in IdsOf(List(d))
    case _ => true
  }

  // ----- Lists of distinct ids -----

  lemma DistinctSame(list: seq<Meta>, a: Meta, b: Meta)
    requires Distinct(list) && a in list && b in list && a.id == b.id
    ensures a == b
  {
    var i, j :| 0 <= i < |list| && 0 <= j < |list| && list[i] == a && list[j] == b;
    assert i == j;
  }

  lemma KeptIds(list: seq<Meta>, active: Option<Id>)
    requires Distinct(list)
    ensures var (kept, evicted) := Evict(list, active);
      && Distinct(kept) && |kept| <= MAX_CONVERSATIONS
      && (forall e :: e in kept <==> e in list && e !in evicted)
      && (forall e :: e in evicted ==> e in list && Some(e.id) != active)
      && IdsOf(kept) == IdsOf(list) - IdsOf(evicted)
  {
    var (kept, evicted) := Evict(list, active);
    EvictionKeepsOrder(list, active);
    WithoutDistinct(list, evicted);
    forall e ensures e in kept <==> e in list && e !in evicted {
      WithoutIn(list, evicted, e);
    }
    forall e | e in evicted ensures e in list && Some(e.id) != active {
      KeptInList(list, active, e);
      EvictedAreOldest(list, active, e);
    }
    hide Evict, Distinct;
    forall e, x | e in kept && x in evicted ensures e.id != x.id {
      if e.id == x.id { DistinctSame(list, e, x); }
    }
    assert IdsOf(kept) == IdsOf(list) - IdsOf(evicted) by {
      forall id | id in IdsOf(list) - IdsOf(evicted) ensures id in IdsOf(kept) {
        var e :| e in list && e.id == id;
        assert e in kept;
      }
    }
  }

  lemma FreshFront(list: seq<Meta>, x: Meta)
    requires Distinct(list) && x.id !in IdsOf(list)
    ensures Distinct([x] + list) && IdsOf([x] + list) == IdsOf(list) + {x.id}
  {
    InsertDistinct(list, 0, x);
    assert list[..0] + [x] + list[0..] == [x] + list;
    assert forall e :: e in [x] + list <==> e == x || e in list;
  }

  /** Changing an entry without changing its id. */
  lemma UpdateIds(list: seq<Meta>, i: nat, e: Meta)
    requires Distinct(list) && i < |list| && e.id == list[i].id
    ensures Distinct(list[i := e]) && IdsOf(list[i := e]) == IdsOf(list)
    ensures forall x :: x in list[i := e] <==> x == e || (x in list && x.id != e.id)
  {
    var changed := list[i := e];
    forall id ensures id in IdsOf(changed) <==> id in IdsOf(list) {
      if id in IdsOf(list) {
        var k :| 0 <= k < |list| && list[k].id == id;
        assert changed[k].id == id && changed[k] in changed;
      }
      if id in IdsOf(changed) {
        var k :| 0 <= k < |changed| && changed[k].id == id;
        assert list[k].id == id && list[k] in list;
      }
    }
    forall x ensures x in changed <==> x == e || (x in list && x.id != e.id) {
      if x in list && x.id != e.id {
        var k :| 0 <= k < |list| && list[k] == x;
        assert changed[k] == x;
      }
      if x in changed && x != e {
        var k :| 0 <= k < |changed| && changed[k] == x;
        assert list[k] == x && k != i;
      }
      assert changed[i] == e;
    }
  }

  lemma FindAll(list: seq<Meta>, id: Id)
    ensures Find(list, id) < |list| <==> id in IdsOf(list)
  {
    if id in IdsOf(list) {
      var k :| 0 <= k < |list| && list[k].id == id;
    }
    if Find(list, id) < |list| {
      assert list[Find(list, id)] in list;
    }
  }

  // ----- With crashes: the index stays recoverable -----

  ghost predicate GoodIndex(idx: IndexFile) {
    && |idx.conversations| <= MAX_CONVERSATIONS && Distinct(idx.conversations)
    && (idx.activeId.Some? ==> idx.activeId.value in IdsOf(idx.conversations))
  }

  /** At most a hundred entries, of distinct ids, the active one among them. */
  ghost predicate Recoverable(d: Disk) {
    GoodIndex(IndexOf(d))
  }

  ghost predicate GoodWrites(ws: seq<Write>) {
    forall i :: 0 <= i < |ws| && ws[i].PutIndex? ==> GoodIndex(ws[i].index)
  }

  lemma {:induction false} EvictWritesShape(evicted: seq<Meta>)
    ensures forall i :: 0 <= i < |EvictWrites(evicted)| ==> EvictWrites(evicted)[i].RemoveFile? || EvictWrites(evicted)[i].RemoveOutputs?
  {
    if evicted != [] { EvictWritesShape(evicted[..|evicted| - 1]); }
  }

  lemma NewActiveGood(d: Disk, id: Id, now: int)
    requires Recoverable(d) && id !in IdsOf(List(d))
    ensures GoodWrites(NewActiveWrites(d, id, now))
  {
    var list := [Fresh(id, now)] + List(d);
    FreshFront(List(d), Fresh(id, now));
    KeptIds(list, Some(id));
    EvictWritesShape(Evict(list, Some(id)).1);
    hide Evict, Distinct;
    assert id in IdsOf(list);
    assert id !in IdsOf(Evict(list, Some(id)).1);
  }

  lemma UpdatesGood(d: Disk, op: Op, now: int)
    requires Recoverable(d) && Proper(d, op) && !op.EnsureActive? && !op.StartNew?
    ensures GoodWrites(WritesOf(d, op, now))
  {
    var list := List(d);
    match op
    case Save(id, messages) =>
      var i := Find(list, id);
      var touched := Touched(list, id, now, |messages|);
      if i < |list| { UpdateIds(list, i, touched[i]); }
      SortDistinct(touched);
    case Switch(target) =>
    case Summarize(id, summary) =>
      var i := Find(list, id);
      if i < |list| { UpdateIds(list, i, list[i].(summary := summary)); }
  }

  lemma WritesGood(d: Disk, op: Op, now: int)
    requires Recoverable(d) && Proper(d, op)
    ensures GoodWrites(WritesOf(d, op, now))
  {
    match op
    case EnsureActive(id) => if !ActiveIsUsable(d) { NewActiveGood(d, id, now); }
    case StartNew(id) => NewActiveGood(d, id, now);
    case _ => UpdatesGood(d, op, now);
  }

  lemma {:induction false} GoodWritesKeep(d: Disk, ws: seq<Write>)
    requires Recoverable(d) && GoodWrites(ws)
    ensures Recoverable(After(d, ws))
  {
    hide GoodIndex;
    if ws != [] { GoodWritesKeep(d, ws[..|ws| - 1]); }
  }

  /** An operation, at what time it ran, and after how many of its writes it was cut off. */
  datatype Attempt = Attempt(op: Op, now: int, cut: nat)

  function Completed(ws: seq<Write>, cut: nat): seq<Write> {
    if cut < |ws| then ws[..cut] else ws
  }

  function RunAttempts(d: Disk, attempts: seq<Attempt>): Disk {
    if attempts == [] then d
    else
      var n := |attempts| - 1;
      var before := RunAttempts(d, attempts[..n]);
      After(before, Completed(WritesOf(before, attempts[n].op, attempts[n].now), attempts[n].cut))
  }

  ghost predicate ProperAttempt(d: Disk, attempts: seq<Attempt>, i: nat) {
    i < |attempts| ==> Proper(RunAttempts(d, attempts[..i]), attempts[i].op)
  }

  ghost predicate ProperAttempts(d: Disk, attempts: seq<Attempt>) {
    forall i: nat :: ProperAttempt(d, attempts, i)
  }

  lemma ProperAttemptsPrefix(d: Disk, attempts: seq<Attempt>)
    requires ProperAttempts(d, attempts) && attempts != []
    ensures ProperAttempts(d, attempts[..|attempts| - 1])
  {
    hide Proper, RunAttempts;
    var front := attempts[..|attempts| - 1];
    forall i: nat ensures ProperAttempt(d, front, i) {
      assert ProperAttempt(d, attempts, i);
      if i < |front| { assert front[..i] == attempts[..i]; }
    }
  }

  /** However operations follow each other and wherever each is cut off, the index on disk is
  one that can be recovered from. */
  lemma {:induction false} CrashesAreRecoverable(d: Disk, attempts: seq<Attempt>)
    requires Recoverable(d) && ProperAttempts(d, attempts)
    ensures Recoverable(RunAttempts(d, attempts))
  {
    hide Recoverable, Proper, WritesOf, After;
    if attempts != [] {
      var n := |attempts| - 1;
      ProperAttemptsPrefix(d, attempts);
      CrashesAreRecoverable(d, attempts[..n]);
      assert ProperAttempt(d, attempts, n);
      var before := RunAttempts(d, attempts[..n]);
      WritesGood(before, attempts[n].op, attempts[n].now);
      GoodWritesKeep(before, Completed(WritesOf(before, attempts[n].op, attempts[n].now), attempts[n].cut));
    }
  }

  // ----- What a completed operation leaves -----

  lemma {:induction false} EvictAfter(d: Disk, evicted: seq<Meta>)
    ensures After(d, EvictWrites(evicted)) ==
      d.(files := d.files - IdsOf(evicted), outputs := d.outputs - IdsOf(evicted))
  {
    if evicted == [] {
      assert d.files - IdsOf(evicted) == d.files;
    } else {
      var n := |evicted| - 1;
      var id := evicted[n].id;
      EvictAfter(d, evicted[..n]);
      TwoMore(d, EvictWrites(evicted[..n]), RemoveFile(id), RemoveOutputs(id));
      assert evicted == evicted[..n] + [evicted[n]];
      assert IdsOf(evicted) == IdsOf(evicted[..n]) + {id};
      assert d.files - IdsOf(evicted[..n]) - {id} == d.files - IdsOf(evicted);
      assert d.outputs - IdsOf(evicted[..n]) - {id} == d.outputs - IdsOf(evicted);
    }
  }

  /** A new conversation is listed, active and on file; exactly the evicted ones lose theirs. */
  lemma NewActiveAfter(d: Disk, id: Id, now: int)
    ensures var (kept, evicted) := Evict([Fresh(id, now)] + List(d), Some(id));
      After(d, NewActiveWrites(d, id, now)) ==
        Disk(Some(IndexFile(1, Some(id), kept)),
             d.files[id := Readable(PLACEHOLDER, [])] - IdsOf(evicted), d.outputs - IdsOf(evicted))
  {
    var (kept, evicted) := Evict([Fresh(id, now)] + List(d), Some(id));
    var d1 := Do(d, PutFile(id, Readable(PLACEHOLDER, [])));
    EvictAfter(d1, evicted);
    NewActiveSteps(d, id, now, d1, Do(After(d1, EvictWrites(evicted)), PutIndex(IndexFile(1, Some(id), kept))));
  }

  /** From whatever a crash left, a completed `ensure_active` returns a conversation that is
  active, listed and on file, with the messages on file. */
  lemma EnsureActiveFindsFile(d: Disk, freshId: Id, now: int)
    requires Recoverable(d) && FreshId(d, freshId)
    ensures var (id, messages) := EnsureActiveResult(d, freshId);
      var d' := After(d, EnsureActiveWrites(d, freshId, now));
      && Recoverable(d') && IndexOf(d').activeId == Some(id) && id in IdsOf(List(d'))
      && id in d'.files && d'.files[id].Readable? && d'.files[id].messages == messages
  {
    if !ActiveIsUsable(d) {
      NewActiveGood(d, freshId, now);
      GoodWritesKeep(d, NewActiveWrites(d, freshId, now));
      NewActiveAfter(d, freshId, now);
      var list := [Fresh(freshId, now)] + List(d);
      FreshFront(List(d), Fresh(freshId, now));
      KeptIds(list, Some(freshId));
    }
  }

  /** The conversation that the index on disk calls active, when it is on file and can be read,
  is returned as it is on file, and nothing is written. */
  lemma ActiveIsReturned(d: Disk, freshId: Id, now: int, a: Id)
    requires d.index.Some? && d.index.value.activeId == Some(a)
    requires a in d.files && d.files[a].Readable?
    ensures EnsureActiveResult(d, freshId) == (a, d.files[a].messages)
    ensures EnsureActiveWrites(d, freshId, now) == [] && After(d, EnsureActiveWrites(d, freshId, now)) == d
  {
  }

  /** In every other case the conversation returned is a new one, without messages. */
  lemma OtherwiseNew(d: Disk, freshId: Id, now: int)
    requires forall a :: d.index.Some? && d.index.value.activeId == Some(a) ==> a !in d.files || d.files[a].Unreadable?
    ensures EnsureActiveResult(d, freshId) == (freshId, [])
    ensures EnsureActiveWrites(d, freshId, now) == NewActiveWrites(d, freshId, now)
  {
  }

  /** A new conversation is listed, active and on file, at most a hundred entries are listed, and
  none that went is newer than an old one that stays. */
  lemma NewActiveListed(d: Disk, id: Id, now: int)
    requires Distinct(List(d)) && id !in IdsOf(List(d))
    ensures
      var d' := After(d, NewActiveWrites(d, id, now));
      var entry := Meta(id, "…", now, now, 0);
      && IndexOf(d').activeId == Some(id) && IndexOf(d').version == 1 && entry in List(d')
      && |List(d')| == (if |List(d)| < 100 then |List(d)| + 1 else 100)
      && (forall e :: e in List(d') ==> e == entry || e in List(d))
      && (forall e, k :: e in List(d) && e !in List(d') && k in List(d) && k in List(d') ==> e.updatedAt <= k.updatedAt)
  {
    var list := [Fresh(id, now)] + List(d);
    NewActiveAfter(d, id, now);
    FreshFront(List(d), Fresh(id, now));
    KeptIds(list, Some(id));
    EvictionOptimal(list, Some(id));
    EvictionKeepsOrder(list, Some(id));
    hide Evict, Distinct, NewActiveWrites, After, IdsOf;
    assert forall e :: e in list <==> e == Fresh(id, now) || e in List(d);
    NotListed(d, id);
  }

  lemma NotListed(d: Disk, id: Id)
    requires id !in IdsOf(List(d))
    ensures forall e :: e in List(d) ==> e.id != id
  {
  }

  /** The id of an entry that was listed in `d` and is not in `d'`. */
  ghost predicate Went(d: Disk, d': Disk, id: Id) {
    exists e :: e in List(d) && e !in List(d') && e.id == id
  }

  /** The new conversation's file holds the placeholder and no messages; an entry that went has
  neither file nor outputs; every other file and directory of outputs is as it was. */
  lemma NewActiveOnFile(d: Disk, id: Id, now: int)
    requires Distinct(List(d)) && id !in IdsOf(List(d))
    ensures
      var d' := After(d, NewActiveWrites(d, id, now));
      && id in d'.files && d'.files[id] == Readable("…", [])
      && (forall x :: x != id ==> (x in d'.files <==> x in d.files && !Went(d, d', x)))
      && (forall x :: x != id && x in d'.files ==> d'.files[x] == d.files[x])
      && (forall x :: x in d'.outputs <==> x in d.outputs && !Went(d, d', x))
  {
    var list := [Fresh(id, now)] + List(d);
    var evicted := Evict(list, Some(id)).1;
    var d' := After(d, NewActiveWrites(d, id, now));
    NewActiveAfter(d, id, now);
    FreshFront(List(d), Fresh(id, now));
    KeptIds(list, Some(id));
    hide Evict, Distinct, NewActiveWrites, After;
    forall x ensures Went(d, d', x) <==> x in IdsOf(evicted) {
      if x in IdsOf(evicted) {
        var e :| e in evicted && e.id == x;
        assert e in list && e.id != id;
        assert e in List(d) && e !in List(d');
      }
      if Went(d, d', x) {
        var e :| e in List(d) && e !in List(d') && e.id == x;
        assert e in list;
      }
    }
    assert id !in IdsOf(evicted);
    hide IdsOf, Went;
  }

  /** The new conversation's file is written first and the index last, with nothing but removals
  between. */
  lemma NewActiveOrder(d: Disk, id: Id, now: int)
    ensures
      var ws := NewActiveWrites(d, id, now);
      && |ws| >= 2 && ws[0] == PutFile(id, Readable("…", [])) && ws[|ws| - 1].PutIndex?
      && forall i :: 0 < i < |ws| - 1 ==> ws[i].RemoveFile? || ws[i].RemoveOutputs?
  {
    EvictWritesShape(Evict([Fresh(id, now)] + List(d), Some(id)).1);
    hide Evict;
  }

  /** Switching makes the target active and changes nothing else; it does nothing when the
  target is not on file or cannot be read. */
  lemma SwitchEffect(d: Disk, target: Id)
    ensures
      var d' := After(d, SwitchWrites(d, target));
      && d'.files == d.files && d'.outputs == d.outputs && List(d') == List(d)
      && (target in d.files && d.files[target].Readable? ==>
            IndexOf(d').activeId == Some(target) && IndexOf(d').version == IndexOf(d).version)
      && (target !in d.files || d.files[target].Unreadable? ==> d' == d && SwitchWrites(d, target) == [])
  {
    if SwitchWrites(d, target) != [] { OneWrite(d, SwitchWrites(d, target)[0]); }
  }

  /** A new summary is put into the listed conversation's entry, where it stands, and into its
  file when that can be read, with the messages it has; an unlisted one changes nothing. */
  lemma SummaryEffect(d: Disk, id: Id, summary: string)
    requires Distinct(List(d))
    ensures
      var ws := UpdateSummaryWrites(d, id, summary);
      var d' := After(d, ws);
      && IndexOf(d').activeId == IndexOf(d).activeId && d'.outputs == d.outputs && |List(d')| == |List(d)|
      && (forall i :: 0 <= i < |List(d)| && List(d)[i].id != id ==> List(d')[i] == List(d)[i])
      && (forall i :: 0 <= i < |List(d)| && List(d)[i].id == id ==> List(d')[i] == List(d)[i].(summary := summary))
      && (id !in IdsOf(List(d)) ==> d' == d)
      && (id in IdsOf(List(d)) && id in d.files && d.files[id].Readable? ==>
            d'.files == d.files[id := Readable(summary, d.files[id].messages)])
      && (id in IdsOf(List(d)) && (id !in d.files || d.files[id].Unreadable?) ==> d'.files == d.files)
      && (ws != [] ==> ws[0].PutIndex?)
  {
    var ws := UpdateSummaryWrites(d, id, summary);
    FindAll(List(d), id);
    if |ws| == 2 {
      TwoMore(d, [], ws[0], ws[1]);
      assert [] + [ws[0], ws[1]] == ws;
    } else if |ws| == 1 {
      OneWrite(d, ws[0]);
      assert [ws[0]] == ws;
    }
  }

  /** A save with an id puts the messages on file under the summary that was on file, or under
  the placeholder; of a listed conversation the entry gets the time and the count, and keeps its
  other fields; everything else is as it was, newest first. Without an id nothing happens. */
  lemma SaveOnDisk(d: Disk, id: Id, messages: seq<Message>, now: int)
    requires Distinct(List(d))
    ensures
      var d' := After(d, SaveWrites(d, id, messages, now));
      && (id == "" ==> d' == d)
      && (id != "" && id in d.files && d.files[id].Readable? ==>
            d'.files == d.files[id := Readable(d.files[id].summary, messages)])
      && (id != "" && (id !in d.files || d.files[id].Unreadable?) ==> d'.files == d.files[id := Readable("…", messages)])
      && IndexOf(d').activeId == IndexOf(d).activeId && d'.outputs == d.outputs
      && |List(d')| == |List(d)| && (id != "" ==> Sorted(List(d')))
      && (forall e :: e in List(d) && e.id != id ==> e in List(d'))
      && (forall e :: e in List(d) && e.id == id && id != "" ==> e.(updatedAt := now, messageCount := |messages|) in List(d'))
      && IdsOf(List(d')) == IdsOf(List(d))
  {
    if id != "" {
      var ws := SaveWrites(d, id, messages, now);
      TwoMore(d, [], ws[0], ws[1]);
      assert [] + [ws[0], ws[1]] == ws;
      FindAll(List(d), id);
      var i := Find(List(d), id);
      var touched := Touched(List(d), id, now, |messages|);
      if i < |List(d)| {
        UpdateIds(List(d), i, touched[i]);
        forall e | e in List(d) && e.id == id ensures e == List(d)[i] { DistinctSame(List(d), e, List(d)[i]); }
      } else {
        forall e | e in List(d) ensures e.id != id {}
      }
      SameIds(SortNewest(touched), touched);
      hide SortNewest, Distinct, Find;
    }
  }

  // ----- Without crashes: the index agrees with the files -----

  ghost predicate Matches(d: Disk, e: Meta) {
    e.id in d.files && d.files[e.id].Readable? &&
    d.files[e.id].summary == e.summary && |d.files[e.id].messages| == e.messageCount
  }

  /** At `now`, the listed ids are the ids with files, entry and file tell the same, and the
  list is sorted newest first. */
  ghost predicate Agrees(d: Disk, now: int) {
    && Recoverable(d)
    && IdsOf(List(d)) == d.files.Keys
    && (forall e :: e in List(d) ==> Matches(d, e) && e.updatedAt <= now)
    && Sorted(List(d))
  }

  lemma FreshSorted(list: seq<Meta>, x: Meta)
    requires Sorted(list) && forall e :: e in list ==> e.updatedAt <= x.updatedAt
    ensures Sorted([x] + list)
  {
  }

  /** Evicting an agreeing store leaves an agreeing store. */
  lemma EvictedAgrees(d: Disk, list: seq<Meta>, id: Id, now: int, d': Disk)
    requires Distinct(list) && IdsOf(list) == d.files.Keys && Sorted(list)
    requires forall e :: e in list ==> Matches(d, e) && e.updatedAt <= now
    requires Recoverable(d') && List(d') == Evict(list, Some(id)).0
    requires d'.files == d.files - IdsOf(Evict(list, Some(id)).1)
    ensures Agrees(d', now)
  {
    var (kept, evicted) := Evict(list, Some(id));
    KeptIds(list, Some(id));
    EvictionKeepsOrder(list, Some(id));
    WithoutSorted(list, evicted);
    hide Evict, Distinct, Sorted, Recoverable;
    forall e | e in kept ensures Matches(d', e) && e.updatedAt <= now {
      assert Matches(d, e) && e.id in IdsOf(kept);
    }
  }

  lemma NewActiveAgrees(d: Disk, id: Id, before: int, now: int)
    requires Agrees(d, before) && before <= now && FreshId(d, id)
    ensures Agrees(After(d, NewActiveWrites(d, id, now)), now)
  {
    var list := [Fresh(id, now)] + List(d);
    NewActiveGood(d, id, now);
    GoodWritesKeep(d, NewActiveWrites(d, id, now));
    NewActiveAfter(d, id, now);
    FreshMatches(d, id, before, now);
    hide Evict, Distinct, Sorted, NewActiveWrites, Matches, Recoverable;
    EvictedAgrees(Do(d, PutFile(id, Readable(PLACEHOLDER, []))), list, id, now, After(d, NewActiveWrites(d, id, now)));
  }

  lemma FreshMatches(d: Disk, id: Id, before: int, now: int)
    requires Agrees(d, before) && before <= now && FreshId(d, id)
    ensures var list := [Fresh(id, now)] + List(d);
      var d1 := Do(d, PutFile(id, Readable(PLACEHOLDER, [])));
      && Distinct(list) && IdsOf(list) == d1.files.Keys && Sorted(list)
      && forall e :: e in list ==> Matches(d1, e) && e.updatedAt <= now
  {
    var list := [Fresh(id, now)] + List(d);
    FreshFront(List(d), Fresh(id, now));
    FreshSorted(List(d), Fresh(id, now));
    hide Distinct, Sorted;
    forall e | e in list
      ensures Matches(Do(d, PutFile(id, Readable(PLACEHOLDER, []))), e) && e.updatedAt <= now
    {
      if e in List(d) {
        assert Matches(d, e) && e.id in IdsOf(List(d));
      }
    }
  }

  /** Replacing one file and the entry of the same id. */
  lemma UpdateAgrees(d: Disk, d': Disk, i: nat, e: Meta, before: int, now: int)
    requires Agrees(d, before) && before <= now && i < |List(d)| && e.id == List(d)[i].id
    requires d'.files.Keys == d.files.Keys && Recoverable(d') && Sorted(List(d'))
    requires forall id :: id in d.files && id != e.id ==> d'.files[id] == d.files[id]
    requires forall x :: x in List(d') <==> x in List(d)[i := e]
    requires Matches(d', e) && e.updatedAt <= now
    ensures Agrees(d', now)
  {
    UpdateIds(List(d), i, e);
    SameIds(List(d'), List(d)[i := e]);
  }

  lemma SaveAgrees(d: Disk, id: Id, messages: seq<Message>, before: int, now: int)
    requires Agrees(d, before) && before <= now && id in IdsOf(List(d))
    ensures Agrees(After(d, SaveWrites(d, id, messages, now)), now)
  {
    WritesGood(d, Save(id, messages), now);
    GoodWritesKeep(d, SaveWrites(d, id, messages, now));
    FindAll(List(d), id);
    if id != "" {
      var i := Find(List(d), id);
      var e := List(d)[i].(updatedAt := now, messageCount := |messages|);
      var ws := SaveWrites(d, id, messages, now);
      TwoMore(d, [], ws[0], ws[1]);
      assert [] + [ws[0], ws[1]] == ws;
      assert Matches(d, List(d)[i]);
      UpdateAgrees(d, After(d, ws), i, e, before, now);
    }
  }

  lemma SummaryAgrees(d: Disk, id: Id, summary: string, before: int, now: int)
    requires Agrees(d, before) && before <= now
    ensures Agrees(After(d, UpdateSummaryWrites(d, id, summary)), now)
  {
    WritesGood(d, Summarize(id, summary), now);
    GoodWritesKeep(d, UpdateSummaryWrites(d, id, summary));
    var i := Find(List(d), id);
    if i < |List(d)| {
      var e := List(d)[i].(summary := summary);
      var ws := UpdateSummaryWrites(d, id, summary);
      assert Matches(d, List(d)[i]);
      TwoMore(d, [], ws[0], ws[1]);
      assert [] + [ws[0], ws[1]] == ws;
      assert Sorted(List(d)[i := e]);
      UpdateAgrees(d, After(d, ws), i, e, before, now);
    }
  }

  lemma SwitchAgrees(d: Disk, target: Id, before: int, now: int)
    requires Agrees(d, before) && before <= now && target in IdsOf(List(d))
    ensures Agrees(After(d, SwitchWrites(d, target)), now)
  {
    var ws := SwitchWrites(d, target);
    if ws != [] { OneWrite(d, ws[0]); }
    var d' := After(d, ws);
    assert d'.files == d.files && List(d') == List(d);
    forall e | e in List(d') ensures Matches(d', e) {
      assert Matches(d, e);
    }
  }

  /** A save puts the messages on file under the summary already there, marks the entry as
  changed now, and leaves everything else as it was. */
  lemma SaveEffect(d: Disk, id: Id, messages: seq<Message>, now: int)
    requires Recoverable(d) && id != "" && id in IdsOf(List(d))
    ensures var d' := After(d, SaveWrites(d, id, messages, now));
      var i := Find(List(d), id);
      && d'.files == d.files[id := Readable(SummaryOf(d, id), messages)] && d'.outputs == d.outputs
      && IndexOf(d').activeId == IndexOf(d).activeId && i < |List(d)| && |List(d')| == |List(d)|
      && (forall x :: x in List(d') <==>
            x == List(d)[i].(updatedAt := now, messageCount := |messages|) || (x in List(d) && x.id != id))
  {
    FindAll(List(d), id);
    var i := Find(List(d), id);
    var ws := SaveWrites(d, id, messages, now);
    TwoMore(d, [], ws[0], ws[1]);
    assert [] + [ws[0], ws[1]] == ws;
    UpdateIds(List(d), i, List(d)[i].(updatedAt := now, messageCount := |messages|));
  }

  /** Operations that are not cut off, at their times. */
  datatype TimedOp = TimedOp(op: Op, now: int)

  function RunOps(d: Disk, ops: seq<TimedOp>): Disk {
    if ops == [] then d
    else
      var n := |ops| - 1;
      var before := RunOps(d, ops[..n]);
      After(before, WritesOf(before, ops[n].op, ops[n].now))
  }

  /** New ids are new, only listed conversations are saved or switched to, and the clock does not
  go back. */
  ghost predicate ProperAt(d: Disk, start: int, ops: seq<TimedOp>, i: nat) {
    i < |ops| ==>
      var before := RunOps(d, ops[..i]);
      && Proper(before, ops[i].op) && (ops[i].op.Save? ==> ops[i].op.id in IdsOf(List(before)))
      && (if i == 0 then start else ops[i - 1].now) <= ops[i].now
  }

  ghost predicate ProperOps(d: Disk, start: int, ops: seq<TimedOp>) {
    forall i: nat :: ProperAt(d, start, ops, i)
  }

  lemma OpAgrees(d: Disk, op: Op, before: int, now: int)
    requires Agrees(d, before) && before <= now && Proper(d, op)
    requires op.Save? ==> op.id in IdsOf(List(d))
    ensures Agrees(After(d, WritesOf(d, op, now)), now)
  {
    match op
    case EnsureActive(id) => if !ActiveIsUsable(d) { NewActiveAgrees(d, id, before, now); }
    case StartNew(id) => NewActiveAgrees(d, id, before, now);
    case Save(id, messages) => SaveAgrees(d, id, messages, before, now);
    case Switch(target) => SwitchAgrees(d, target, before, now);
    case Summarize(id, summary) => SummaryAgrees(d, id, summary, before, now);
  }

  lemma ProperPrefix(d: Disk, start: int, ops: seq<TimedOp>)
    requires ProperOps(d, start, ops) && ops != []
    ensures ProperOps(d, start, ops[..|ops| - 1])
  {
    hide Proper, RunOps;
    var front := ops[..|ops| - 1];
    forall i: nat ensures ProperAt(d, start, front, i) {
      assert ProperAt(d, start, ops, i);
      if i < |front| { assert front[..i] == ops[..i]; }
    }
  }

  /** Over every run without crashes the index agrees with the files. */
  lemma {:induction false} IndexAgreesWithFiles(d: Disk, start: int, ops: seq<TimedOp>)
    requires Agrees(d, start) && ProperOps(d, start, ops)
    ensures Agrees(RunOps(d, ops), if ops == [] then start else ops[|ops| - 1].now)
  {
    hide Agrees, Proper, WritesOf;
    if ops != [] {
      var n := |ops| - 1;
      ProperPrefix(d, start, ops);
      IndexAgreesWithFiles(d, start, ops[..n]);
      assert ProperAt(d, start, ops, n);
      OpAgrees(RunOps(d, ops[..n]), ops[n].op, if n == 0 then start else ops[n - 1].now, ops[n].now);
    }
  }

  lemma EmptyDiskAgrees(start: int)
    ensures Agrees(EMPTY_DISK, start)
  {
  }
}
