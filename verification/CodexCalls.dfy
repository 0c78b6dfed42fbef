/** Tool calls of the Responses stream: items keyed by an id, in the order they first appear. */
module CodexCalls {
  import opened Options
  import opened SortedKeys
  import opened ToolCalls

  /** The events of the stream that matter here; a missing item id reads as the empty one. */
  datatype Event =
    | ItemEvent(functionCall: bool, itemId: string, callId: Option<string>, name: Option<string>, arguments: Option<Text>)
    | ArgumentsDelta(itemId: string, delta: Option<Text>)
    | Completed
    | Failed(message: string)
    | Other

  datatype Entry = Entry(itemId: string, buf: Buf)

  datatype Result = Calls(calls: seq<ToolCall>) | Failure(message: string)

  /** The item an event is about; empty when it is about none. */
  function KeyOf(e: Event): string {
    match e
    case ItemEvent(functionCall, itemId, _, _, _) => if functionCall then itemId else ""
    case ArgumentsDelta(itemId, _) => itemId
    case _ => ""
  }

  function NonEmpty<T(==)>(o: Option<seq<T>>, fallback: seq<T>): seq<T> {
    if o.Some? && o.value != [] then o.value else fallback
  }

  /** An item event replaces what it names, a delta appends. */
  function AddEvent(b: Buf, e: Event): Buf {
    match e
    case ItemEvent(_, _, callId, name, arguments) =>
      Buf(NonEmpty(callId, b.id), NonEmpty(name, b.name), NonEmpty(arguments, b.arguments))
    case ArgumentsDelta(_, delta) => if delta.Some? then b.(arguments := Append(b.arguments, delta.value)) else b
    case _ => b
  }

  function Own(events: seq<Event>, id: string): seq<Event> {
    if events == [] then []
    else
      var n := |events| - 1;
      Own(events[..n], id) + (if KeyOf(events[n]) == id then [events[n]] else [])
  }

  function Build(own: seq<Event>): Buf {
    if own == [] then EMPTY_BUF else AddEvent(Build(own[..|own| - 1]), own[|own| - 1])
  }

  /** The items in the order of their first events. */
  function FirstSeen(events: seq<Event>): seq<string> {
    if events == [] then []
    else
      var before := FirstSeen(events[..|events| - 1]);
      var key := KeyOf(events[|events| - 1]);
      if key == "" || key in before then before else before + [key]
  }

  /** What the buffer holds after `events`. */
  function Built(events: seq<Event>, ids: seq<string>): seq<Entry> {
    seq(|ids|, i requires 0 <= i < |ids| => Entry(ids[i], Build(Own(events, ids[i]))))
  }

  function Bufs(entries: seq<Entry>): seq<Buf> {
    seq(|entries|, i requires 0 <= i < |entries| => entries[i].buf)
  }

  predicate Ends(e: Event) {
    e.Completed? || e.Failed?
  }

  /** Where the stream ends: at the first event that completes or fails it. */
  function EndAt(events: seq<Event>): (n: nat)
    ensures n <= |events| && (n < |events| ==> Ends(events[n]))
    ensures forall j :: 0 <= j < n ==> !Ends(events[j])
  {
    if events == [] || Ends(events[0]) then 0 else 1 + EndAt(events[1..])
  }

  // ----- First-seen order -----

  lemma {:induction false} SeenOnce(events: seq<Event>)
    ensures forall id :: id in FirstSeen(events) <==> id != "" && Own(events, id) != []
    ensures forall i, j :: 0 <= i < j < |FirstSeen(events)| ==> FirstSeen(events)[i] != FirstSeen(events)[j]
  {
    if events != [] {
      var before := FirstSeen(events[..|events| - 1]);
      SeenOnce(events[..|events| - 1]);
      assert forall i :: 0 <= i < |before| ==> before[i] in before;
    }
  }

  /** At some point `a` has had an event and `b` has not. */
  ghost predicate Before(events: seq<Event>, a: string, b: string) {
    exists p :: 0 <= p <= |events| && Own(events[..p], a) != [] && Own(events[..p], b) == []
  }

  lemma BeforeLonger(events: seq<Event>, n: nat, a: string, b: string)
    requires n <= |events| && Before(events[..n], a, b)
    ensures Before(events, a, b)
  {
    var p :| 0 <= p <= n && Own(events[..n][..p], a) != [] && Own(events[..n][..p], b) == [];
    assert events[..n][..p] == events[..p];
  }

  /** The ids are those with events, without the empty one and without repetition, and an id
  comes before another when its first event does. */
  lemma {:induction false} FirstSeenOrder(events: seq<Event>)
    ensures forall id :: id in FirstSeen(events) <==> id != "" && Own(events, id) != []
    ensures forall i, j :: 0 <= i < j < |FirstSeen(events)| ==>
      FirstSeen(events)[i] != FirstSeen(events)[j] && Before(events, FirstSeen(events)[i], FirstSeen(events)[j])
  {
    SeenOnce(events);
    if events != [] {
      var n, ids := |events| - 1, FirstSeen(events);
      FirstSeenOrder(events[..n]);
      var before := FirstSeen(events[..n]);
      forall i, j | 0 <= i < j < |ids| ensures Before(events, ids[i], ids[j]) {
        if j < |before| {
          BeforeLonger(events, n, ids[i], ids[j]);
        } else {
          assert before[i] in before && ids[j] !in before;
          assert Own(events[..n], ids[i]) != [] && Own(events[..n], ids[j]) == [];
        }
      }
    }
  }

  /** Each call depends on its own item's events in arrival order alone. */
  lemma CallsDependOnOwnEvents(f: seq<Event>, g: seq<Event>)
    requires forall id :: Own(f, id) == Own(g, id)
    ensures forall id :: id in FirstSeen(f) <==> id in FirstSeen(g)
    ensures FirstSeen(f) == FirstSeen(g) ==> Built(f, FirstSeen(f)) == Built(g, FirstSeen(g))
  {
    SeenOnce(f);
    SeenOnce(g);
  }

  /** An item event that names the call. */
  predicate Names(e: Event) {
    e.ItemEvent? && e.name.Some? && e.name.value != ""
  }

  predicate Identifies(e: Event) {
    e.ItemEvent? && e.callId.Some? && e.callId.value != ""
  }

  predicate CarriesText(e: Event) {
    (e.ItemEvent? && e.arguments.Some? && e.arguments.value != []) || (e.ArgumentsDelta? && e.delta.Some?)
  }

  /** The latest call id, name and whole arguments sent by item events count. */
  lemma {:induction false} LatestItemWins(own: seq<Event>, i: nat)
    requires i < |own|
    ensures Identifies(own[i]) && (forall j :: i < j < |own| ==> !Identifies(own[j])) ==> Build(own).id == own[i].callId.value
    ensures Names(own[i]) && (forall j :: i < j < |own| ==> !Names(own[j])) ==> Build(own).name == own[i].name.value
    ensures own[i].ItemEvent? && CarriesText(own[i]) && (forall j :: i < j < |own| ==> !CarriesText(own[j])) ==>
      Build(own).arguments == own[i].arguments.value
  {
    if i < |own| - 1 {
      LatestItemWins(own[..|own| - 1], i);
    }
  }

  function Deltas(own: seq<Event>): Text {
    if own == [] then []
    else
      var e := own[|own| - 1];
      Deltas(own[..|own| - 1]) + (if e.ArgumentsDelta? then e.delta.GetOr([]) else [])
  }

  /** Deltas are appended to the latest whole arguments, each whole, up to the first point `k` at
  which the cap is reached. */
  lemma {:induction false} WholeThenDeltas(front: seq<Event>, whole: Event, tail: seq<Event>) returns (k: nat)
    requires whole.ItemEvent? && CarriesText(whole)
    requires forall j :: 0 <= j < |tail| && tail[j].ItemEvent? ==> !CarriesText(tail[j])
    ensures k <= |tail| && Build(front + [whole] + tail).arguments == whole.arguments.value + Deltas(tail[..k])
    ensures k < |tail| ==> |Build(front + [whole] + tail).arguments| >= ARGUMENTS_CAP
    ensures forall j :: 0 <= j < k ==> |whole.arguments.value + Deltas(tail[..j])| < ARGUMENTS_CAP
  {
    hide Build, Deltas, AddEvent;
    WholeTaken(front, whole);
    assert front + [whole] + [] == front + [whole];
    if tail == [] {
      k := 0;
    } else {
      var n := |tail| - 1;
      k := WholeThenDeltas(front, whole, tail[..n]);
      TextTaken(front + [whole] + tail[..n], tail[n]);
      DeltasPush(tail[..n], tail[n]);
      assert tail == tail[..n] + [tail[n]];
      assert front + [whole] + tail == front + [whole] + tail[..n] + [tail[n]];
      assert forall j :: 0 <= j <= n ==> tail[..n][..j] == tail[..j];
      if k == n && |Build(front + [whole] + tail[..n]).arguments| < ARGUMENTS_CAP {
        assert tail[..n + 1] == tail;
        k := n + 1;
      }
    }
  }

  lemma WholeTaken(front: seq<Event>, whole: Event)
    requires whole.ItemEvent? && CarriesText(whole)
    ensures Build(front + [whole]).arguments == whole.arguments.value && Deltas([]) == []
  {
    assert (front + [whole])[..|front|] == front;
  }

  lemma TextTaken(own: seq<Event>, e: Event)
    requires e.ItemEvent? ==> !CarriesText(e)
    ensures Build(own + [e]).arguments ==
      if e.ArgumentsDelta? then Append(Build(own).arguments, e.delta.GetOr([])) else Build(own).arguments
  {
    assert (own + [e])[..|own|] == own;
  }

  lemma DeltasPush(own: seq<Event>, e: Event)
    ensures Deltas(own + [e]) == Deltas(own) + (if e.ArgumentsDelta? then e.delta.GetOr([]) else [])
  {
    assert (own + [e])[..|own|] == own;
  }

  // ----- Which events belong together -----

  /** A function-call item with this id, or an arguments delta that names it. */
  predicate About(e: Event, id: string) {
    || (e.ItemEvent? && e.functionCall && e.itemId == id)
    || (e.ArgumentsDelta? && e.itemId == id)
  }

  /** An item's events are those about it, each as often as it arrived and in arrival order:
  `at` are their positions. */
  lemma {:induction false} OwnEvents(events: seq<Event>, id: string) returns (at: seq<nat>)
    requires id != ""
    ensures PickedAt(events, at, Own(events, id))
    ensures forall j :: 0 <= j < |events| ==> (Has(at, j) <==> About(events[j], id))
  {
    at := [];
    if events != [] {
      var n := |events| - 1;
      var own, take := Own(events[..n], id), About(events[n], id);
      assert Own(events, id) == if take then own + [events[n]] else own;
      hide PickedAt, Has, Own, About, KeyOf;
      var earlier := OwnEvents(events[..n], id);
      at := PickOneMore(events, earlier, own, take);
      forall j | 0 <= j < |events| ensures Has(at, j) <==> About(events[j], id) {
        if j < n { assert Has(earlier, j) <==> About(events[..n][j], id); }
      }
    }
  }

  /** What one event about an item changes. An item event replaces what it carries and keeps the
  rest; a delta is taken, whole, below 65536 bytes and not at all from there on. */
  lemma OneEvent(own: seq<Event>, e: Event)
    ensures Build([]) == Buf("", "", [])
    ensures
      var b, b' := Build(own), Build(own + [e]);
      && (e.ItemEvent? ==>
            && b'.id == (if e.callId.GetOr("") == "" then b.id else e.callId.value)
            && b'.name == (if e.name.GetOr("") == "" then b.name else e.name.value)
            && b'.arguments == (if e.arguments.GetOr([]) == [] then b.arguments else e.arguments.value))
      && (e.ArgumentsDelta? ==>
            && b'.id == b.id && b'.name == b.name
            && (e.delta.None? || |b.arguments| >= 65536 ==> b'.arguments == b.arguments)
            && (e.delta.Some? && |b.arguments| < 65536 ==> b'.arguments == b.arguments + e.delta.value))
  {
    assert (own + [e])[..|own|] == own;
  }

  /** One buffer per item that an event is about, built from those events, and no other; item
  events of other kinds and events without an id leave nothing. */
  lemma BuffersByItem(events: seq<Event>, id: string)
    ensures id in FirstSeen(events) <==> id != "" && exists j :: 0 <= j < |events| && About(events[j], id)
    ensures |Built(events, FirstSeen(events))| == |FirstSeen(events)|
    ensures forall i :: 0 <= i < |FirstSeen(events)| ==>
      Bufs(Built(events, FirstSeen(events)))[i] == Build(Own(events, FirstSeen(events)[i]))
  {
    SeenOnce(events);
    if id != "" {
      var at := OwnEvents(events, id);
      if Own(events, id) != [] { assert Has(at, at[0]) && About(events[at[0]], id); }
      hide FirstSeen, Own, About, Build;
      if j :| 0 <= j < |events| && About(events[j], id) { assert Has(at, j); }
    }
  }

  // ----- One more event -----

  lemma Push(events: seq<Event>, e: Event, id: string)
    ensures Own(events + [e], id) == if KeyOf(e) == id then Own(events, id) + [e] else Own(events, id)
    ensures KeyOf(e) == id ==> Build(Own(events + [e], id)) == AddEvent(Build(Own(events, id)), e)
    ensures FirstSeen(events + [e]) ==
      if KeyOf(e) == "" || KeyOf(e) in FirstSeen(events) then FirstSeen(events) else FirstSeen(events) + [KeyOf(e)]
  {
    assert (events + [e])[..|events|] == events;
    var own := Own(events, id);
    assert (own + [e])[..|own|] == own;
  }

  lemma BuiltSkip(events: seq<Event>, e: Event)
    requires KeyOf(e) == ""
    ensures Built(events + [e], FirstSeen(events + [e])) == Built(events, FirstSeen(events))
  {
    hide Own, Build, FirstSeen, KeyOf;
    var ids := FirstSeen(events);
    SeenOnce(events);
    Push(events, e, "");
    forall i | 0 <= i < |ids| ensures Built(events + [e], ids)[i] == Built(events, ids)[i] {
      assert ids[i] in ids;
      Push(events, e, ids[i]);
    }
  }

  /** Where `upsert_call` found or put the item. */
  ghost predicate Upserted(was: seq<Entry>, itemId: string, calls: seq<Entry>, pos: nat) {
    && pos < |calls| && calls[pos].itemId == itemId
    && (calls == was || ((forall k :: 0 <= k < |was| ==> was[k].itemId != itemId) && calls == was + [Entry(itemId, EMPTY_BUF)]))
  }

  lemma UpsertedIds(events: seq<Event>, e: Event, calls: seq<Entry>, pos: nat)
    requires KeyOf(e) != "" && Upserted(Built(events, FirstSeen(events)), KeyOf(e), calls, pos)
    ensures var ids := FirstSeen(events + [e]);
      && |ids| == |calls| && ids[pos] == KeyOf(e)
      && forall i :: 0 <= i < |ids| ==> calls[i] == Entry(ids[i], Build(Own(events, ids[i])))
  {
    hide FirstSeen, KeyOf, Own, Build;
    var before := FirstSeen(events);
    var was := Built(events, before);
    Push(events, e, KeyOf(e));
    assert forall k :: 0 <= k < |before| ==> was[k].itemId == before[k];
    if calls == was {
      FoundIds(events, KeyOf(e), pos);
    } else {
      AppendedIds(events, KeyOf(e), pos);
      assert FirstSeen(events + [e]) == before + [KeyOf(e)];
    }
  }

  lemma FoundIds(events: seq<Event>, key: string, pos: nat)
    requires pos < |FirstSeen(events)| && Built(events, FirstSeen(events))[pos].itemId == key
    ensures FirstSeen(events)[pos] == key && key in FirstSeen(events)
  {
  }

  lemma AppendedIds(events: seq<Event>, key: string, pos: nat)
    requires key != "" && pos <= |FirstSeen(events)|
    requires forall k :: 0 <= k < |FirstSeen(events)| ==> FirstSeen(events)[k] != key
    requires (Built(events, FirstSeen(events)) + [Entry(key, EMPTY_BUF)])[pos].itemId == key
    ensures key !in FirstSeen(events) && pos == |FirstSeen(events)| && Build(Own(events, key)) == EMPTY_BUF
  {
    NewItem(events, key);
  }

  lemma NewItem(events: seq<Event>, key: string)
    requires key != "" && key !in FirstSeen(events)
    ensures Build(Own(events, key)) == EMPTY_BUF
  {
    SeenOnce(events);
  }

  lemma Placed(events: seq<Event>, e: Event, calls: seq<Entry>, pos: nat)
    requires KeyOf(e) != "" && Upserted(Built(events, FirstSeen(events)), KeyOf(e), calls, pos)
    ensures Built(events + [e], FirstSeen(events + [e])) == calls[pos := Entry(KeyOf(e), AddEvent(calls[pos].buf, e))]
  {
    hide Own, Build, FirstSeen, KeyOf, AddEvent;
    var ids := FirstSeen(events + [e]);
    UpsertedIds(events, e, calls, pos);
    SeenOnce(events + [e]);
    forall i | 0 <= i < |ids| ensures
      Built(events + [e], ids)[i] == calls[pos := Entry(KeyOf(e), AddEvent(calls[pos].buf, e))][i]
    {
      Push(events, e, ids[i]);
      assert i != pos ==> ids[i] != KeyOf(e);
    }
  }

  // ----- The loop -----

  class CallBuffer {
    var calls: seq<Entry>

    constructor ()
      ensures calls == []
    {
      calls := [];
    }

    /** Finds the item's buffer or appends an empty one; an empty id has none. */
    method UpsertCall(itemId: string) returns (pos: Option<nat>)
      modifies this
      ensures itemId == "" ==> pos.None? && calls == old(calls)
      ensures itemId != "" ==> pos.Some? && Upserted(old(calls), itemId, calls, pos.value)
    {
      if itemId == "" {
        return None;
      }
      for i := 0 to |calls|
        invariant calls == old(calls) && forall k :: 0 <= k < i ==> calls[k].itemId != itemId
      {
        if calls[i].itemId == itemId {
          return Some(i);
        }
      }
      calls := calls + [Entry(itemId, EMPTY_BUF)];
      return Some(|calls| - 1);
    }

    method TakeEvent(e: Event, ghost events: seq<Event>)
      requires calls == Built(events, FirstSeen(events))
      modifies this
      ensures calls == Built(events + [e], FirstSeen(events + [e]))
    {
      var pos: Option<nat> := None;
      if KeyOf(e) == "" {
        BuiltSkip(events, e);
      }
      match e {
        case ItemEvent(functionCall, itemId, callId, name, arguments) =>
          if functionCall {
            pos := UpsertCall(itemId);
          }
        case ArgumentsDelta(itemId, _) =>
          pos := UpsertCall(itemId);
        case _ =>
      }
      if pos.Some? {
        Placed(events, e, calls, pos.value);
        var buf := calls[pos.value].buf;
        match e {
          case ItemEvent(_, _, callId, name, arguments) =>
            if callId.Some? && callId.value != "" {
              buf := buf.(id := callId.value);
            }
            if name.Some? && name.value != "" {
              buf := buf.(name := name.value);
            }
            if arguments.Some? && arguments.value != [] {
              buf := buf.(arguments := arguments.value);
            }
          case ArgumentsDelta(_, delta) =>
            if delta.Some? {
              if |buf.arguments| < ARGUMENTS_CAP {
                buf := buf.(arguments := buf.arguments + delta.value);
              }
            }
        }
        calls := calls[pos.value := Entry(calls[pos.value].itemId, buf)];
      }
    }
  }

  /** Takes events until the stream completes or fails. */
  method ReadEvents(events: seq<Event>, buffer: CallBuffer) returns (failure: Option<string>)
    requires buffer.calls == []
    modifies buffer
    ensures var n := EndAt(events);
      && buffer.calls == Built(events[..n], FirstSeen(events[..n]))
      && failure == if n < |events| && events[n].Failed? then Some(events[n].message) else None
  {
    hide Built, FirstSeen;
    BuiltNothing(events);
    for i := 0 to |events|
      invariant forall j :: 0 <= j < i ==> !Ends(events[j])
      invariant buffer.calls == Built(events[..i], FirstSeen(events[..i]))
    {
      if events[i].Completed? {
        return None;
      }
      if events[i].Failed? {
        return Some(events[i].message);
      }
      assert events[..i + 1] == events[..i] + [events[i]];
      buffer.TakeEvent(events[i], events[..i]);
    }
    return None;
  }

  lemma BuiltNothing(events: seq<Event>)
    ensures Built(events[..0], FirstSeen(events[..0])) == []
  {
  }

  /** Reads the stream to its end and hands the named calls out in first-seen order. */
  method StreamCalls(events: seq<Event>) returns (r: Result)
    ensures var n := EndAt(events);
      r == if n < |events| && events[n].Failed? then Failure(events[n].message)
           else Calls(Named(Bufs(Built(events[..n], FirstSeen(events[..n])))))
  {
    var buffer := new CallBuffer();
    var failure := ReadEvents(events, buffer);
    if failure.Some? {
      return Failure(failure.value);
    }
    var calls := KeepNamed(buffer.calls);
    return Calls(calls);
  }

  method KeepNamed(entries: seq<Entry>) returns (calls: seq<ToolCall>)
    ensures calls == Named(Bufs(entries))
  {
    calls := [];
    for j := 0 to |entries|
      invariant calls == Named(Bufs(entries[..j]))
    {
      assert Bufs(entries[..j + 1])[..j] == Bufs(entries[..j]);
      if entries[j].buf.name != "" {
        calls := calls + [entries[j].buf];
      }
    }
    assert entries[..|entries|] == entries;
  }
}
