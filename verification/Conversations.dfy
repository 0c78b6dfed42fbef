/** The conversation store: an index and one file per conversation, kept by operations made of
several file writes, each of which is atomic and between any two of which a crash may come. */
module Conversations {
  import opened Options
  import opened Eviction

  datatype Message = Message(role: string, content: string)

  datatype IndexFile = IndexFile(version: nat, activeId: Option<Id>, conversations: seq<Meta>)

  const EMPTY_INDEX := IndexFile(0, None, [])

  const PLACEHOLDER := "…"

  datatype ConversationFile = Readable(summary: string, messages: seq<Message>) | Unreadable

  /** What is on disk: the index, unless it is missing or unreadable; the conversation files;
  and the ids with a directory of tool outputs. */
  datatype Disk = Disk(index: Option<IndexFile>, files: map<Id, ConversationFile>, outputs: set<Id>)

  const EMPTY_DISK := Disk(None, map[], {})

  /** One atomic change. Files are written under another name and renamed into place. */
  datatype Write =
    | PutFile(id: Id, file: ConversationFile)
    | RemoveFile(id: Id)
    | RemoveOutputs(id: Id)
    | PutIndex(index: IndexFile)

  function Do(d: Disk, w: Write): Disk {
    match w
    case PutFile(id, file) => d.(files := d.files[id := file])
    case RemoveFile(id) => d.(files := d.files - {id})
    case RemoveOutputs(id) => d.(outputs := d.outputs - {id})
    case PutIndex(index) => d.(index := Some(index))
  }

  function After(d: Disk, ws: seq<Write>): Disk {
    if ws == [] then d else Do(After(d, ws[..|ws| - 1]), ws[|ws| - 1])
  }

  /** The disk after each of the writes. */
  function Trace(d: Disk, ws: seq<Write>): seq<Disk> {
    if ws == [] then [] else Trace(d, ws[..|ws| - 1]) + [After(d, ws)]
  }

  lemma {:induction false} AfterConcat(d: Disk, a: seq<Write>, b: seq<Write>)
    ensures After(d, a + b) == After(After(d, a), b)
    ensures Trace(d, a + b) == Trace(d, a) + Trace(After(d, a), b)
  {
    if b == [] {
      assert a + b == a;
    } else {
      AfterConcat(d, a, b[..|b| - 1]);
      assert (a + b)[..|a + b| - 1] == a + b[..|b| - 1];
    }
  }

  // ----- The writes of each operation -----

  function IndexOf(d: Disk): IndexFile {
    d.index.GetOr(EMPTY_INDEX)
  }

  function Find(list: seq<Meta>, id: Id): (i: nat)
    ensures i <= |list| && (i < |list| ==> list[i].id == id)
    ensures forall j :: 0 <= j < i ==> list[j].id != id
  {
    if list == [] || list[0].id == id then 0 else 1 + Find(list[1..], id)
  }

  function EvictWrites(evicted: seq<Meta>): seq<Write> {
    if evicted == [] then []
    else EvictWrites(evicted[..|evicted| - 1]) + [RemoveFile(evicted[|evicted| - 1].id), RemoveOutputs(evicted[|evicted| - 1].id)]
  }

  function Fresh(id: Id, now: int): Meta {
    Meta(id, PLACEHOLDER, now, now, 0)
  }

  function NewActiveWrites(d: Disk, id: Id, now: int): seq<Write> {
    var (kept, evicted) := Evict([Fresh(id, now)] + IndexOf(d).conversations, Some(id));
    [PutFile(id, Readable(PLACEHOLDER, []))] + EvictWrites(evicted) + [PutIndex(IndexFile(1, Some(id), kept))]
  }

  /** The active conversation has a file that can be read. */
  predicate ActiveIsUsable(d: Disk) {
    var active := IndexOf(d).activeId;
    active.Some? && active.value in d.files && d.files[active.value].Readable?
  }

  function EnsureActiveWrites(d: Disk, freshId: Id, now: int): seq<Write> {
    if ActiveIsUsable(d) then [] else NewActiveWrites(d, freshId, now)
  }

  function EnsureActiveResult(d: Disk, freshId: Id): (Id, seq<Message>) {
    if ActiveIsUsable(d) then
      var active := IndexOf(d).activeId.value;
      (active, d.files[active].messages)
    else (freshId, [])
  }

  function SummaryOf(d: Disk, id: Id): string {
    if id in d.files && d.files[id].Readable? then d.files[id].summary else PLACEHOLDER
  }

  function Touched(list: seq<Meta>, id: Id, now: int, count: nat): seq<Meta> {
    var i := Find(list, id);
    if i < |list| then list[i := list[i].(updatedAt := now, messageCount := count)] else list
  }

  function SaveWrites(d: Disk, id: Id, messages: seq<Message>, now: int): seq<Write> {
    if id == "" then []
    else
      var idx := IndexOf(d);
      [PutFile(id, Readable(SummaryOf(d, id), messages)),
       PutIndex(idx.(conversations := SortNewest(Touched(idx.conversations, id, now, |messages|))))]
  }

  /** Switching fails, and writes nothing, when the target cannot be read. */
  function SwitchWrites(d: Disk, target: Id): seq<Write> {
    if target in d.files && d.files[target].Readable? then [PutIndex(IndexOf(d).(activeId := Some(target)))] else []
  }

  function Resummarized(list: seq<Meta>, id: Id, summary: string): seq<Meta> {
    var i := Find(list, id);
    if i < |list| then list[i := list[i].(summary := summary)] else list
  }

  function UpdateSummaryWrites(d: Disk, id: Id, summary: string): seq<Write> {
    var idx := IndexOf(d);
    if Find(idx.conversations, id) == |idx.conversations| then []
    else
      [PutIndex(idx.(conversations := Resummarized(idx.conversations, id, summary)))] +
      (if id in d.files && d.files[id].Readable? then [PutFile(id, d.files[id].(summary := summary))] else [])
  }

  // ----- The operations -----

  class ConversationStore {
    var disk: Disk
    /** Every state the disk has been in; a crash leaves one of them. */
    ghost var history: seq<Disk>

    constructor (disk: Disk)
      ensures this.disk == disk && history == [disk]
    {
      this.disk := disk;
      history := [disk];
    }

    method Perform(w: Write)
      modifies this
      ensures disk == Do(old(disk), w) && history == old(history) + [disk]
    {
      disk := match w
        case PutFile(id, file) => disk.(files := disk.files[id := file])
        case RemoveFile(id) => disk.(files := disk.files - {id})
        case RemoveOutputs(id) => disk.(outputs := disk.outputs - {id})
        case PutIndex(index) => disk.(index := Some(index));
      history := history + [disk];
    }

    /** The disk went through exactly the states of these writes. */
    twostate predicate Wrote(ws: seq<Write>)
      reads this
    {
      disk == After(old(disk), ws) && history == old(history) + Trace(old(disk), ws)
    }

    /** The oldest entry that is not active; the first of them when several are as old. */
    static method FindOldest(list: seq<Meta>, active: Option<Id>) returns (r: Option<nat>)
      ensures r == OldestPos(list, active)
    {
      r := None;
      for i := 0 to |list|
        invariant r == OldestPos(list[..i], active)
      {
        assert list[..i + 1][..i] == list[..i];
        if Some(list[i].id) != active {
          if r.None? || list[i].updatedAt < list[r.value].updatedAt {
            r := Some(i);
          }
        }
      }
      assert list[..|list|] == list;
    }

    method EvictExcess(idx: IndexFile) returns (idx': IndexFile)
      modifies this
      ensures idx' == idx.(conversations := Evict(idx.conversations, idx.activeId).0)
      ensures Wrote(EvictWrites(Evict(idx.conversations, idx.activeId).1))
    {
      idx' := idx;
      ghost var evicted := [];
      hide StillToEvict, Evict, Do;
      NothingEvicted(idx.conversations, idx.activeId);
      while |idx'.conversations| > MAX_CONVERSATIONS
        invariant idx' == idx.(conversations := idx'.conversations)
        invariant StillToEvict(idx.conversations, idx.activeId, evicted, idx'.conversations)
        invariant Wrote(EvictWrites(evicted))
        decreases |idx'.conversations|
      {
        OneMoreEvicted(idx.conversations, idx.activeId, evicted, idx'.conversations);
        var oldest := FindOldest(idx'.conversations, idx'.activeId);
        if oldest.None? {
          break;
        }
        var removed := idx'.conversations[oldest.value];
        idx' := idx'.(conversations := Remove(idx'.conversations, oldest.value));
        Perform(RemoveFile(removed.id));
        Perform(RemoveOutputs(removed.id));
        EvictWritesPush(evicted, removed);
        TwoMore(old(disk), EvictWrites(evicted), RemoveFile(removed.id), RemoveOutputs(removed.id));
        evicted := evicted + [removed];
      }
      AllEvicted(idx.conversations, idx.activeId, evicted, idx'.conversations);
    }

    method StartNewActive(freshId: Id, now: int) returns (id: Id)
      modifies this
      ensures id == freshId && Wrote(NewActiveWrites(old(disk), freshId, now))
    {
      id := freshId;
      Perform(PutFile(id, Readable(PLACEHOLDER, [])));
      var idx := IndexOf(disk);
      idx := idx.(conversations := [Fresh(id, now)] + idx.conversations);
      idx := idx.(activeId := Some(id), version := 1);
      label Evicting:
      idx := EvictExcess(idx);
      Perform(PutIndex(idx));
      NewActiveSteps(old(disk), freshId, now, old@Evicting(disk), disk);
    }

    method EnsureActive(freshId: Id, now: int) returns (id: Id, messages: seq<Message>)
      modifies this
      ensures (id, messages) == EnsureActiveResult(old(disk), freshId)
      ensures Wrote(EnsureActiveWrites(old(disk), freshId, now))
    {
      var idx := IndexOf(disk);
      if idx.activeId.Some? {
        id := idx.activeId.value;
        if id in disk.files && disk.files[id].Readable? {
          return id, disk.files[id].messages;
        }
      }
      id := StartNewActive(freshId, now);
      messages := [];
    }

    method SaveActiveMessages(activeId: Id, messages: seq<Message>, now: int)
      modifies this
      ensures Wrote(SaveWrites(old(disk), activeId, messages, now))
    {
      if activeId == "" {
        return;
      }
      var summary := SummaryOf(disk, activeId);
      Perform(PutFile(activeId, Readable(summary, messages)));
      var idx := IndexOf(disk);
      var list := idx.conversations;
      var i := Find(list, activeId);
      if i < |list| {
        list := list[i := list[i].(updatedAt := now, messageCount := |messages|)];
      }
      list := SortNewest(list);
      Perform(PutIndex(idx.(conversations := list)));
      TwoMore(old(disk), [], PutFile(activeId, Readable(summary, messages)), PutIndex(idx.(conversations := list)));
    }

    method SwitchActive(target: Id) returns (messages: Option<seq<Message>>)
      modifies this
      ensures Wrote(SwitchWrites(old(disk), target))
      ensures messages == if target in old(disk).files && old(disk).files[target].Readable?
                          then Some(old(disk).files[target].messages) else None
    {
      if target !in disk.files || disk.files[target].Unreadable? {
        return None;
      }
      messages := Some(disk.files[target].messages);
      OneWrite(disk, PutIndex(IndexOf(disk).(activeId := Some(target))));
      Perform(PutIndex(IndexOf(disk).(activeId := Some(target))));
    }

    method UpdateSummary(id: Id, summary: string)
      modifies this
      ensures Wrote(UpdateSummaryWrites(old(disk), id, summary))
    {
      var idx := IndexOf(disk);
      var i := Find(idx.conversations, id);
      if i == |idx.conversations| {
        return;
      }
      idx := idx.(conversations := idx.conversations[i := idx.conversations[i].(summary := summary)]);
      OneWrite(disk, PutIndex(idx));
      Perform(PutIndex(idx));
      if id in disk.files && disk.files[id].Readable? {
        var file := disk.files[id].(summary := summary);
        Perform(PutFile(id, file));
        TwoMore(old(disk), [], PutIndex(idx), PutFile(id, file));
      }
    }
  }

  /** Evicting the list comes down to evicting `rest` after `evicted`. */
  ghost predicate StillToEvict(list: seq<Meta>, active: Option<Id>, evicted: seq<Meta>, rest: seq<Meta>) {
    Evict(list, active).0 == Evict(rest, active).0 && Evict(list, active).1 == evicted + Evict(rest, active).1
  }

  lemma NothingEvicted(list: seq<Meta>, active: Option<Id>)
    ensures StillToEvict(list, active, [], list)
  {
  }

  lemma OneMoreEvicted(list: seq<Meta>, active: Option<Id>, evicted: seq<Meta>, rest: seq<Meta>)
    requires StillToEvict(list, active, evicted, rest) && |rest| > MAX_CONVERSATIONS
    ensures var pos := OldestPos(rest, active);
      pos.Some? ==> StillToEvict(list, active, evicted + [rest[pos.value]], Remove(rest, pos.value))
  {
  }

  lemma AllEvicted(list: seq<Meta>, active: Option<Id>, evicted: seq<Meta>, rest: seq<Meta>)
    requires StillToEvict(list, active, evicted, rest)
    requires |rest| <= MAX_CONVERSATIONS || OldestPos(rest, active).None?
    ensures Evict(list, active).0 == rest && Evict(list, active).1 == evicted
  {
    EvictNone(rest, active);
    hide Evict;
    assert evicted + [] == evicted;
  }

  lemma EvictNone(list: seq<Meta>, active: Option<Id>)
    requires |list| <= MAX_CONVERSATIONS || OldestPos(list, active).None?
    ensures Evict(list, active).0 == list && Evict(list, active).1 == []
  {
    hide OldestPos;
  }

  lemma EvictWritesPush(evicted: seq<Meta>, e: Meta)
    ensures EvictWrites(evicted + [e]) == EvictWrites(evicted) + [RemoveFile(e.id), RemoveOutputs(e.id)]
  {
    assert (evicted + [e])[..|evicted|] == evicted;
  }

  lemma OneWrite(d: Disk, w: Write)
    ensures After(d, [w]) == Do(d, w) && Trace(d, [w]) == [Do(d, w)]
  {
    assert [w][..0] == [];
  }

  lemma TwoMore(d: Disk, ws: seq<Write>, a: Write, b: Write)
    ensures After(d, ws + [a, b]) == Do(Do(After(d, ws), a), b)
    ensures Trace(d, ws + [a, b]) == Trace(d, ws) + [Do(After(d, ws), a)] + [Do(Do(After(d, ws), a), b)]
  {
    assert (ws + [a, b])[..|ws| + 1] == ws + [a];
    assert (ws + [a])[..|ws|] == ws;
  }

  /** The pieces of a new conversation's writes, put together. */
  lemma NewActiveSteps(d: Disk, id: Id, now: int, d1: Disk, d3: Disk)
    requires d1 == Do(d, PutFile(id, Readable(PLACEHOLDER, [])))
    requires var (kept, evicted) := Evict([Fresh(id, now)] + IndexOf(d).conversations, Some(id));
      d3 == Do(After(d1, EvictWrites(evicted)), PutIndex(IndexFile(1, Some(id), kept)))
    ensures var (kept, evicted) := Evict([Fresh(id, now)] + IndexOf(d).conversations, Some(id));
      && After(d, NewActiveWrites(d, id, now)) == d3
      && Trace(d, NewActiveWrites(d, id, now)) == [d1] + Trace(d1, EvictWrites(evicted)) + [d3]
  {
    var (kept, evicted) := Evict([Fresh(id, now)] + IndexOf(d).conversations, Some(id));
    var first := [PutFile(id, Readable(PLACEHOLDER, []))];
    var last := [PutIndex(IndexFile(1, Some(id), kept))];
    OneWrite(d, first[0]);
    OneWrite(After(d1, EvictWrites(evicted)), last[0]);
    AfterConcat(d, first, EvictWrites(evicted));
    AfterConcat(d, first + EvictWrites(evicted), last);
  }
}
