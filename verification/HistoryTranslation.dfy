/** Translation of a chat-format history into the instructions and input items of a Responses
request. */
module HistoryTranslation {
  import opened Options
  import opened SortedKeys

  datatype Call = Call(id: Option<string>, name: Option<string>, arguments: Option<string>)

  datatype Message = Message(
    role: Option<string>, content: Option<string>, toolCallId: Option<string>, toolCalls: Option<seq<Call>>)

  datatype Item =
    | FunctionCall(callId: string, name: string, arguments: string)
    | FunctionCallOutput(callId: string, output: string)
    | MessageItem(role: string, contentType: string, text: string)

  function Role(m: Message): string {
    m.role.GetOr("user")
  }

  function Content(m: Message): string {
    m.content.GetOr("")
  }

  predicate IsResult(m: Message) {
    Role(m) == "tool"
  }

  /** An assistant turn that carries tool calls; its text, if any, is not part of the request. */
  predicate IsCallTurn(m: Message) {
    Role(m) == "assistant" && m.toolCalls.Some?
  }

  function CallItem(c: Call): Item {
    FunctionCall(c.id.GetOr(""), c.name.GetOr(""), c.arguments.GetOr("{}"))
  }

  function CallItems(calls: seq<Call>): (items: seq<Item>)
    ensures |items| == |calls|
  {
    seq(|calls|, i requires 0 <= i < |calls| => CallItem(calls[i]))
  }

  /** The input items of one message. */
  function ItemsOf(m: Message): seq<Item> {
    if IsResult(m) then [FunctionCallOutput(m.toolCallId.GetOr(""), Content(m))]
    else if IsCallTurn(m) then CallItems(m.toolCalls.value)
    else if Content(m) == "" || Role(m) == "system" then []
    else [MessageItem(Role(m), if Role(m) == "assistant" then "output_text" else "input_text", Content(m))]
  }

  function AllItems(messages: seq<Message>): seq<Item> {
    if messages == [] then [] else AllItems(messages[..|messages| - 1]) + ItemsOf(messages[|messages| - 1])
  }

  /** The non-empty system texts, in order. */
  function SystemTexts(messages: seq<Message>): (texts: seq<string>)
    ensures forall t :: t in texts ==> t != ""
  {
    if messages == [] then []
    else
      var m := messages[|messages| - 1];
      var before := SystemTexts(messages[..|messages| - 1]);
      if Role(m) == "system" && Content(m) != "" then before + [Content(m)] else before
  }

  /** Texts with a blank line between each two. */
  function Join(texts: seq<string>): string {
    if texts == [] then ""
    else if |texts| == 1 then texts[0]
    else Join(texts[..|texts| - 1]) + "\n\n" + texts[|texts| - 1]
  }

  method PushCalls(input: seq<Item>, calls: seq<Call>) returns (input': seq<Item>)
    ensures input' == input + CallItems(calls)
  {
    input' := input;
    for j := 0 to |calls|
      invariant input' == input + CallItems(calls[..j])
    {
      assert CallItems(calls[..j + 1]) == CallItems(calls[..j]) + [CallItem(calls[j])];
      input' := input' + [FunctionCall(calls[j].id.GetOr(""), calls[j].name.GetOr(""), calls[j].arguments.GetOr("{}"))];
    }
    assert calls[..|calls|] == calls;
  }

  lemma OneMessage(messages: seq<Message>, i: nat)
    requires i < |messages|
    ensures AllItems(messages[..i + 1]) == AllItems(messages[..i]) + ItemsOf(messages[i])
    ensures var m, before := messages[i], SystemTexts(messages[..i]);
      && SystemTexts(messages[..i + 1]) == (if Role(m) == "system" && Content(m) != "" then before + [Content(m)] else before)
      && Join(before + [Content(m)]) == (if before == [] then Content(m) else Join(before) + "\n\n" + Content(m))
      && (Join(before) == "" <==> before == [])
  {
    assert messages[..i + 1][..i] == messages[..i];
    JoinPush(SystemTexts(messages[..i]), Content(messages[i]));
    JoinEmpty(SystemTexts(messages[..i]));
    hide Join;
  }

  lemma JoinPush(texts: seq<string>, t: string)
    ensures Join([]) == "" && Join(texts + [t]) == if texts == [] then t else Join(texts) + "\n\n" + t
  {
    assert (texts + [t])[..|texts|] == texts;
  }

  /** The loop over the history. */
  method TranslateEach(messages: seq<Message>) returns (instructions: string, input: seq<Item>)
    ensures input == AllItems(messages) && instructions == Join(SystemTexts(messages))
  {
    instructions, input := "", [];
    for i := 0 to |messages|
      invariant input == AllItems(messages[..i])
      invariant instructions == Join(SystemTexts(messages[..i]))
    {
      OneMessage(messages, i);
      hide AllItems, SystemTexts, Join, CallItems;
      var m := messages[i];
      var role := Role(m);
      if role == "tool" {
        input := input + [FunctionCallOutput(m.toolCallId.GetOr(""), Content(m))];
        continue;
      }
      if role == "assistant" && m.toolCalls.Some? {
        input := PushCalls(input, m.toolCalls.value);
        continue;
      }
      var content := Content(m);
      if content == "" {
        continue;
      }
      if role == "system" {
        if instructions != "" {
          instructions := instructions + "\n\n";
        }
        instructions := instructions + content;
        continue;
      }
      var contentType := if role == "assistant" then "output_text" else "input_text";
      input := input + [MessageItem(role, contentType, content)];
    }
    assert messages[..|messages|] == messages;
  }

  method Translate(messages: seq<Message>) returns (instructions: string, input: seq<Item>)
    ensures AllItems(messages) != [] || SystemTexts(messages) == [] ==>
      input == AllItems(messages) && instructions == Join(SystemTexts(messages))
    ensures AllItems(messages) == [] && SystemTexts(messages) != [] ==>
      input == [MessageItem("user", "input_text", Join(SystemTexts(messages)))] && instructions == ""
  {
    instructions, input := TranslateEach(messages);
    JoinEmpty(SystemTexts(messages));
    // The backend refuses an empty input: a lone system text becomes a user message.
    if input == [] && instructions != "" {
      input := [MessageItem("user", "input_text", instructions)];
      instructions := "";
    }
  }

  lemma JoinEmpty(texts: seq<string>)
    requires forall t :: t in texts ==> t != ""
    ensures Join(texts) == "" <==> texts == []
  {
    if |texts| == 1 {
      assert texts[0] in texts;
    } else if |texts| > 1 {
      assert |Join(texts)| >= |"\n\n"|;
    }
  }

  // ----- What each message becomes -----

  lemma AddedItems(messages: seq<Message>, m: Message)
    ensures AllItems(messages + [m]) == AllItems(messages) + ItemsOf(m)
  {
    assert (messages + [m])[..|messages|] == messages;
  }

  /** An assistant's turn with calls adds exactly one call item per call, in their order,
  whatever its content. */
  lemma CallTurnAdds(messages: seq<Message>, m: Message, calls: seq<Call>)
    requires m.role == Some("assistant") && m.toolCalls == Some(calls)
    ensures
      var before, after := AllItems(messages), AllItems(messages + [m]);
      && before <= after && |after| == |before| + |calls|
      && forall i :: 0 <= i < |calls| ==>
           after[|before| + i] == FunctionCall(calls[i].id.GetOr(""), calls[i].name.GetOr(""), calls[i].arguments.GetOr("{}"))
  {
    AddedItems(messages, m);
  }

  /** A tool's result adds exactly one output item. */
  lemma ResultAdds(messages: seq<Message>, m: Message)
    requires m.role == Some("tool")
    ensures AllItems(messages + [m]) ==
      AllItems(messages) + [FunctionCallOutput(m.toolCallId.GetOr(""), m.content.GetOr(""))]
  {
    AddedItems(messages, m);
  }

  /** Any other message adds its text, if it has one and is not a system text: the assistant's
  as an output, any other speaker's, or no speaker's, as an input. */
  lemma TextAdds(messages: seq<Message>, m: Message)
    requires m.role != Some("tool") && !(m.role == Some("assistant") && m.toolCalls.Some?)
    ensures
      var before, after := AllItems(messages), AllItems(messages + [m]);
      var said := m.content.GetOr("") != "" && m.role != Some("system");
      && (!said ==> after == before)
      && (said && m.role == Some("assistant") ==> after == before + [MessageItem("assistant", "output_text", m.content.value)])
      && (said && m.role != Some("assistant") ==>
            after == before + [MessageItem(m.role.GetOr("user"), "input_text", m.content.value)])
  {
    AddedItems(messages, m);
  }

  function Contents(messages: seq<Message>): (texts: seq<string>)
    ensures |texts| == |messages|
  {
    seq(|messages|, i requires 0 <= i < |messages| => messages[i].content.GetOr(""))
  }

  predicate SystemText(m: Message) {
    m.role == Some("system") && m.content.GetOr("") != ""
  }

  lemma NoSystemText()
    ensures PickedAt(Contents([]), [], SystemTexts([]))
  {
  }

  lemma LastSystemText(messages: seq<Message>)
    requires messages != []
    ensures
      var n := |messages| - 1;
      var before := SystemTexts(messages[..n]);
      && Contents(messages)[..n] == Contents(messages[..n])
      && SystemTexts(messages) == if SystemText(messages[n]) then before + [Contents(messages)[n]] else before
  {
  }

  /** The system texts are the contents, not empty, of the system messages, in order and each as
  often as it stands there: `at` are their positions. */
  lemma {:induction false} SystemTextsAt(messages: seq<Message>) returns (at: seq<nat>)
    ensures PickedAt(Contents(messages), at, SystemTexts(messages))
    ensures forall j :: 0 <= j < |messages| ==> (Has(at, j) <==> SystemText(messages[j]))
  {
    hide PickedAt, Has, SystemTexts, SystemText, Contents;
    if messages == [] {
      at := [];
      NoSystemText();
    } else {
      var n := |messages| - 1;
      var all, texts, take := Contents(messages), SystemTexts(messages[..n]), SystemText(messages[n]);
      LastSystemText(messages);
      var before := SystemTextsAt(messages[..n]);
      at := PickOneMore(all, before, texts, take);
      forall j | 0 <= j < |messages| ensures Has(at, j) <==> SystemText(messages[j]) {
        if j < n { assert Has(before, j) <==> SystemText(messages[..n][j]); }
      }
      assert SystemTexts(messages) == if take then texts + [all[|all| - 1]] else texts;
    }
  }

  // ----- What is preserved -----

  /** Tool traffic: a call made or a result given. */
  datatype Traffic = Asked(id: string, name: string, arguments: string) | Answered(id: string, output: string)

  function TrafficOfItems(items: seq<Item>): seq<Traffic> {
    if items == [] then []
    else
      var n := |items| - 1;
      TrafficOfItems(items[..n]) + match items[n]
        case FunctionCall(id, name, arguments) => [Asked(id, name, arguments)]
        case FunctionCallOutput(id, output) => [Answered(id, output)]
        case MessageItem(_, _, _) => []
  }

  function TurnTraffic(m: Message): seq<Traffic> {
    if m.role == Some("tool") then [Answered(m.toolCallId.GetOr(""), m.content.GetOr(""))]
    else if m.role == Some("assistant") && m.toolCalls.Some? then
      var calls := m.toolCalls.value;
      seq(|calls|, i requires 0 <= i < |calls| =>
        Asked(calls[i].id.GetOr(""), calls[i].name.GetOr(""), calls[i].arguments.GetOr("{}")))
    else []
  }

  function TrafficOfMessages(messages: seq<Message>): seq<Traffic> {
    if messages == [] then []
    else TrafficOfMessages(messages[..|messages| - 1]) + TurnTraffic(messages[|messages| - 1])
  }

  /** Something said: the speaker and the text. */
  datatype Saying = Saying(role: string, text: string)

  function SayingsOfItems(items: seq<Item>): seq<Saying> {
    if items == [] then []
    else
      var n := |items| - 1;
      SayingsOfItems(items[..n]) + (if items[n].MessageItem? then [Saying(items[n].role, items[n].text)] else [])
  }

  /** The text of a message that is neither a system text nor a tool result; the text of a
  turn that carries tool calls only on request. */
  function SayingOf(m: Message, withCallTurns: bool): seq<Saying> {
    if m.content.GetOr("") == "" || m.role == Some("system") || m.role == Some("tool") then []
    else if m.role == Some("assistant") && m.toolCalls.Some? && !withCallTurns then []
    else [Saying(m.role.GetOr("user"), m.content.value)]
  }

  function Sayings(messages: seq<Message>, withCallTurns: bool): seq<Saying> {
    if messages == [] then []
    else Sayings(messages[..|messages| - 1], withCallTurns) + SayingOf(messages[|messages| - 1], withCallTurns)
  }

  lemma {:induction false} TrafficConcat(a: seq<Item>, b: seq<Item>)
    ensures TrafficOfItems(a + b) == TrafficOfItems(a) + TrafficOfItems(b)
  {
    if b == [] {
      assert a + b == a;
    } else {
      TrafficConcat(a, b[..|b| - 1]);
      assert (a + b)[..|a + b| - 1] == a + b[..|b| - 1];
    }
  }

  lemma {:induction false} SayingsConcat(a: seq<Item>, b: seq<Item>)
    ensures SayingsOfItems(a + b) == SayingsOfItems(a) + SayingsOfItems(b)
  {
    if b == [] {
      assert a + b == a;
    } else {
      SayingsConcat(a, b[..|b| - 1]);
      assert (a + b)[..|a + b| - 1] == a + b[..|b| - 1];
    }
  }

  lemma {:induction false} CallsTraffic(calls: seq<Call>)
    ensures SayingsOfItems(CallItems(calls)) == []
    ensures TrafficOfItems(CallItems(calls)) == seq(|calls|, i requires 0 <= i < |calls| =>
      Asked(calls[i].id.GetOr(""), calls[i].name.GetOr(""), calls[i].arguments.GetOr("{}")))
  {
    if calls != [] {
      var n := |calls| - 1;
      CallsTraffic(calls[..n]);
      assert CallItems(calls)[..n] == CallItems(calls[..n]);
    }
  }

  lemma MessageItems(m: Message)
    ensures TrafficOfItems(ItemsOf(m)) == TurnTraffic(m)
    ensures SayingsOfItems(ItemsOf(m)) == SayingOf(m, false)
  {
    if IsCallTurn(m) {
      CallsTraffic(m.toolCalls.value);
    } else if ItemsOf(m) != [] {
      assert ItemsOf(m)[..0] == [];
    }
  }

  /** Calls and results keep their content and their common order; every other non-empty text
  outside tool-call turns appears once, in order. */
  lemma {:induction false} TranslationPreserves(messages: seq<Message>)
    ensures TrafficOfItems(AllItems(messages)) == TrafficOfMessages(messages)
    ensures SayingsOfItems(AllItems(messages)) == Sayings(messages, false)
  {
    if messages != [] {
      var n := |messages| - 1;
      TranslationPreserves(messages[..n]);
      TrafficConcat(AllItems(messages[..n]), ItemsOf(messages[n]));
      SayingsConcat(AllItems(messages[..n]), ItemsOf(messages[n]));
      MessageItems(messages[n]);
    }
  }

  /** The input is empty only when there is nothing at all to send. */
  lemma NothingIsLeftOut(messages: seq<Message>)
    requires TrafficOfMessages(messages) != [] || Sayings(messages, false) != []
    ensures AllItems(messages) != []
  {
    TranslationPreserves(messages);
  }

  /** The assistant's texts are outputs, all others inputs. */
  lemma {:induction false} ContentTypes(messages: seq<Message>)
    ensures forall i :: 0 <= i < |AllItems(messages)| && AllItems(messages)[i].MessageItem? ==>
      (AllItems(messages)[i].contentType == "output_text" <==> AllItems(messages)[i].role == "assistant") &&
      (AllItems(messages)[i].contentType == "input_text" <==> AllItems(messages)[i].role != "assistant")
  {
    if messages != [] {
      ContentTypes(messages[..|messages| - 1]);
    }
  }

  lemma {:induction false} SayingsCount(messages: seq<Message>)
    ensures |Sayings(messages, false)| <= |Sayings(messages, true)|
    ensures |Sayings(messages, false)| == |Sayings(messages, true)| <==>
      forall i :: 0 <= i < |messages| && messages[i].role == Some("assistant") && messages[i].toolCalls.Some? ==>
        messages[i].content.GetOr("") == ""
    ensures |Sayings(messages, false)| == |Sayings(messages, true)| ==> Sayings(messages, false) == Sayings(messages, true)
  {
    if messages != [] {
      var n := |messages| - 1;
      SayingsCount(messages[..n]);
      assert forall i :: 0 <= i < n ==> messages[..n][i] == messages[i];
    }
  }

  /** No text of the history is lost exactly when no tool-call turn carries text. */
  lemma TextLossIsCallTurnText(messages: seq<Message>)
    ensures SayingsOfItems(AllItems(messages)) == Sayings(messages, true) <==>
      forall i :: 0 <= i < |messages| && messages[i].role == Some("assistant") && messages[i].toolCalls.Some? ==>
        messages[i].content.GetOr("") == ""
  {
    TranslationPreserves(messages);
    SayingsCount(messages);
  }

  // ----- Results follow their calls -----

  ghost predicate ItemsPaired(items: seq<Item>) {
    forall k :: 0 <= k < |items| && items[k].FunctionCallOutput? ==>
      exists j :: 0 <= j < k && items[j].FunctionCall? && items[j].callId == items[k].callId
  }

  ghost predicate Calls(m: Message, id: string) {
    m.role == Some("assistant") && m.toolCalls.Some? &&
    exists c :: 0 <= c < |m.toolCalls.value| && m.toolCalls.value[c].id.GetOr("") == id
  }

  ghost predicate MessagesPaired(messages: seq<Message>) {
    forall k :: 0 <= k < |messages| && messages[k].role == Some("tool") ==>
      exists j :: 0 <= j < k && Calls(messages[j], messages[k].toolCallId.GetOr(""))
  }

  ghost predicate HasCall(items: seq<Item>, id: string) {
    exists j :: 0 <= j < |items| && items[j].FunctionCall? && items[j].callId == id
  }

  lemma HasCallConcat(a: seq<Item>, b: seq<Item>, id: string)
    ensures HasCall(a + b, id) <==> HasCall(a, id) || HasCall(b, id)
  {
    if HasCall(a, id) {
      var j :| 0 <= j < |a| && a[j].FunctionCall? && a[j].callId == id;
      assert (a + b)[j] == a[j];
    }
    if HasCall(b, id) {
      var j :| 0 <= j < |b| && b[j].FunctionCall? && b[j].callId == id;
      assert (a + b)[|a| + j] == b[j];
    }
  }

  lemma {:induction false} CallsBecomeItems(messages: seq<Message>, id: string)
    ensures HasCall(AllItems(messages), id) <==> exists j :: 0 <= j < |messages| && Calls(messages[j], id)
  {
    if messages != [] {
      var n := |messages| - 1;
      CallsBecomeItems(messages[..n], id);
      HasCallConcat(AllItems(messages[..n]), ItemsOf(messages[n]), id);
      assert forall j :: 0 <= j < n ==> messages[..n][j] == messages[j];
      CallTurnItems(messages[n], id);
    }
  }

  lemma CallTurnItems(m: Message, id: string)
    ensures HasCall(ItemsOf(m), id) <==> Calls(m, id)
  {
    if Calls(m, id) {
      var c :| 0 <= c < |m.toolCalls.value| && m.toolCalls.value[c].id.GetOr("") == id;
      assert ItemsOf(m)[c].callId == id;
    }
  }

  lemma PairedMore(items: seq<Item>, more: seq<Item>)
    requires |more| <= 1 || forall i :: 0 <= i < |more| ==> more[i].FunctionCall?
    ensures ItemsPaired(items + more) <==>
      ItemsPaired(items) && forall i :: 0 <= i < |more| && more[i].FunctionCallOutput? ==> HasCall(items, more[i].callId)
  {
    var all := items + more;
    if ItemsPaired(all) {
      forall k | 0 <= k < |items| && items[k].FunctionCallOutput?
        ensures exists j :: 0 <= j < k && items[j].FunctionCall? && items[j].callId == items[k].callId
      {
        assert all[k] == items[k];
        var j :| 0 <= j < k && all[j].FunctionCall? && all[j].callId == all[k].callId;
        assert items[j] == all[j];
      }
      forall i | 0 <= i < |more| && more[i].FunctionCallOutput? ensures HasCall(items, more[i].callId) {
        assert all[|items| + i] == more[i];
        var j :| 0 <= j < |items| + i && all[j].FunctionCall? && all[j].callId == all[|items| + i].callId;
        assert items[j] == all[j];
      }
    }
    if ItemsPaired(items) && forall i :: 0 <= i < |more| && more[i].FunctionCallOutput? ==> HasCall(items, more[i].callId) {
      forall k | 0 <= k < |all| && all[k].FunctionCallOutput?
        ensures exists j :: 0 <= j < k && all[j].FunctionCall? && all[j].callId == all[k].callId
      {
        if k < |items| {
          assert items[k] == all[k];
          var j :| 0 <= j < k && items[j].FunctionCall? && items[j].callId == items[k].callId;
          assert all[j] == items[j];
        } else {
          assert more[k - |items|] == all[k];
          var j :| 0 <= j < |items| && items[j].FunctionCall? && items[j].callId == more[k - |items|].callId;
          assert all[j] == items[j];
        }
      }
    }
  }

  /** Every result item follows a call item of its id exactly when every tool result in the
  history follows an assistant turn with that call. */
  lemma {:induction false} PairingPreserved(messages: seq<Message>)
    ensures ItemsPaired(AllItems(messages)) <==> MessagesPaired(messages)
  {
    if messages != [] {
      var n := |messages| - 1;
      var m := messages[n];
      PairingPreserved(messages[..n]);
      PairedMore(AllItems(messages[..n]), ItemsOf(m));
      CallsBecomeItems(messages[..n], m.toolCallId.GetOr(""));
      PairedLast(messages);
      ResultItems(m, AllItems(messages[..n]));
      hide ItemsPaired, MessagesPaired, HasCall, ItemsOf, Calls;
    }
  }

  lemma ResultItems(m: Message, items: seq<Item>)
    ensures |ItemsOf(m)| <= 1 || forall i :: 0 <= i < |ItemsOf(m)| ==> ItemsOf(m)[i].FunctionCall?
    ensures (forall i :: 0 <= i < |ItemsOf(m)| && ItemsOf(m)[i].FunctionCallOutput? ==> HasCall(items, ItemsOf(m)[i].callId))
      <==> (m.role == Some("tool") ==> HasCall(items, m.toolCallId.GetOr("")))
  {
    if IsResult(m) {
      assert ItemsOf(m)[0] == FunctionCallOutput(m.toolCallId.GetOr(""), Content(m));
    }
  }

  lemma PairedLast(messages: seq<Message>)
    requires messages != []
    ensures var n := |messages| - 1;
      MessagesPaired(messages) <==>
        && MessagesPaired(messages[..n])
        && (messages[n].role == Some("tool") ==>
              exists j :: 0 <= j < |messages[..n]| && Calls(messages[..n][j], messages[n].toolCallId.GetOr("")))
  {
    var n := |messages| - 1;
    assert forall j :: 0 <= j < n ==> messages[..n][j] == messages[j];
  }
}
