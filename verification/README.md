# Hiterm: verified models of five stateful components

Hiterm is a terminal emulator with an AI chat overlay. This project models five of its
components in Dafny 4.11 and proves what they are for. They share no state. `dafny verify
dfyconfig.toml` checks everything.

| component | files | main results |
|---|---|---|
| streaming `<think>` filter | `ThinkTags`, `ThinkFilter` | a grammar of tags, fixed character by character, that the three recognisers decide exactly; one faithful reading per text; a block is routed by its opener's own name; output and state after every chunk depend on the text alone |
| configuration reloader | `WatchTable`, `ConfigState`, `ConfigRuns`, `ReloadProtocol`, `ColorSchemes` | watch table consistent in every run, registrations exact under a stated condition, deferred watching equals eager watching if and only if a stated guard holds; latest reload wins under relaxed memory ordering; generation determines configuration; every subscriber is called back once per applied load and its removal is precise; a load watches exactly the paths asked for; lazy schemes agree with the eager table if and only if the table is coherent |
| conversation store | `Eviction`, `Conversations`, `ConversationRuns` | eviction optimal and order-keeping; index recoverable after a crash at any write; what each operation leaves on disk, field by field; index agrees with the files over crash-free runs |
| tool calls and history | `ToolCalls`, `CodexCalls`, `HistoryTranslation` | assembly independent of interleaving, exact effect of the size cap, first-seen order; calls, results and texts preserved in order, pairing preserved in both directions |
| two exact results | `Windows`, `BytecodeCache` | window reassignment is a matching that a second run leaves alone; the cache codec is a two-way inverse |

`Options` and `SortedKeys` are helpers.

## How the models relate to the program

- Objects that the program updates in place are classes (`InlineThinkFilter`, `ConfigInner`,
  `ColorSchemeRegistry`, `ConversationStore`, `CallBuffer`, `GuiFrontEnd`); loops are loops. Each
  method is proved against a grammar, a declarative relation, or a function of the old state, and
  the theorems are about those.
- Text of the filter is a sequence of characters. The program works on UTF-8 bytes; every byte it
  looks at is ASCII, so the positions differ but not the decisions.
- A path is the list of its components, so that the parent of a path is computed. Whether a path is
  a regular file, whether a watcher can be created, and whether the operating system accepts or
  drops a watch are inputs, fresh for every call. What loading a configuration gives, what the
  content hash is, the clock and new conversation ids are inputs too.
- The interleavings of `ReloadProtocol` are at the level of single atomic accesses of the epoch
  counter, lock acquisitions, lock sections and callback invocations. The counter is accessed with
  relaxed ordering in the program, so a read may return a stale value; sequential consistency is the
  special case in which it never does.
- In the store every named file changes in one step, because the program writes under another name
  and renames. A crash is a stop between two such steps; a write that fails stops the operation in
  the same way.

Some properties hold only under a condition, which is proved to be exact.

- Deferred watching equals eager watching unless a replacement of the configuration has switched
  automatic reload off while watches are still owed (`DeferredEqualsEager`).
- The lazy scheme registry answers like the eager table after every history if and only if every
  entry that a search can load has, under each of its names, the palette of the last entry of that
  name, and no search for a stored name stops at an entry that does not parse
  (`LazyAgreesWithEager`). Distinct names and aliases suffice.
- The text of an assistant turn that carries tool calls is dropped by the history translation; no
  text is lost if and only if no such turn has text (`TextLossIsCallTurnText`).
- The operating system's registrations stay exact when stale paths are dropped if and only if no
  path plays two parts, watched directly and as a watched file's directory, of which one goes and
  the other stays (`DroppedExactness`).
- A call's arguments are complete if and only if no text arrives once they have reached 65536 bytes
  (`ArgumentsComplete`).
- The cache codec round-trips if and only if the signature is shorter than 65536 bytes, as the
  program's is (`DecodeCache`).

## Model

| member | source | states |
|---|---|---|
| ThinkTags.SkipAsciiWhitespace | hiterm-gui/src/ai_client.rs:1247-1252 | stops at the first character that is not one of the five ASCII spaces |
| ThinkTags.ParseThinkTagName | hiterm-gui/src/ai_client.rs:1177-1194 | finds a name, in any case, that a `>` or a space ends; none exists when it finds none, although one name is a prefix of the other |
| ThinkTags.ParseThinkTagAt | hiterm-gui/src/ai_client.rs:1141-1175 | accepts exactly the tags of the grammar: `<`, spaces, a slash when closing, name, spaces, `>` |
| ThinkTags.TagWritten | hiterm-gui/src/ai_client.rs:1141-1194 | a text is a tag if and only if it is written as one: `<`, spaces, a slash and spaces when closing, `think` or `thinking` in small or capital letters, spaces, `>`; the word names the tag |
| ThinkTags.TagUnique | hiterm-gui/src/ai_client.rs:1141-1194 | at one position there is at most one tag, with one end and one name |
| ThinkTags.TagBrackets | hiterm-gui/src/ai_client.rs:1141-1175 | a tag holds one `<`, its first character, and one `>`, its last |
| ThinkTags.UnfinishedIffShape | hiterm-gui/src/ai_client.rs:1203-1244 | a tail can still become a tag exactly when it is spaces, the start of a name, or a name and spaces, after the bracket and slash |
| ThinkTags.UnfinishedIsLast | hiterm-gui/src/ai_client.rs:1197-1201 | an unfinished tag starts at the last `<` and has no `>` |
| ThinkTags.PartialThinkTagStart | hiterm-gui/src/ai_client.rs:1196-1245 | returns a position exactly when the text from there can be extended to a tag it is not yet, of either name |
| ThinkFilter.ScriptUnique | hiterm-gui/src/ai_client.rs:1087-1139 | a text has one reading as runs without tags of their mode, separated by openers and the closers of the same name |
| ThinkFilter.Scan | hiterm-gui/src/ai_client.rs:1087-1139 | such a reading exists for every text and contains every character of it |
| ThinkFilter.CharactersConserved | hiterm-gui/src/ai_client.rs:1087-1139 | every character is emitted once or belongs to a removed tag |
| ThinkFilter.BlockIsRouted | hiterm-gui/src/ai_client.rs:1065-1125 | text without an opener, an opener, text without a closer of its name, that closer: the first text is shown, the second is thought, both tags go, the rest is read anew; closers of the other name and further openers are thought like any text |
| ThinkFilter.OpenBlockIsThought | hiterm-gui/src/ai_client.rs:1091-1106 | when no closer of the opener's name follows, everything after the opener is thought |
| ThinkFilter.PlainTextIsShown | hiterm-gui/src/ai_client.rs:1115-1122 | text without an opener is shown character by character, stray closers included |
| ThinkFilter.SegmentIsAppended | hiterm-gui/src/ai_client.rs:1093-1120 | a token adds its characters to the stream as shown, a reasoning segment as thought |
| ThinkFilter.EmittedPromptly | hiterm-gui/src/ai_client.rs:1083-1121 | at every moment all that the text so far means has been emitted, except for a last piece of it that is the beginning of a tag |
| ThinkFilter.InlineThinkFilter.FindOpenTag | hiterm-gui/src/ai_client.rs:1065-1072 | finds the first opener of either name, or there is none |
| ThinkFilter.InlineThinkFilter.FindCloseTag | hiterm-gui/src/ai_client.rs:1074-1081 | finds the first closer of the block's own name, or there is none |
| ThinkFilter.InlineThinkFilter.SafeEmitLen | hiterm-gui/src/ai_client.rs:1083-1085 | everything before the unfinished tag at the end, or everything |
| ThinkFilter.HoldBackResumes | hiterm-gui/src/ai_client.rs:1083-1121 | without a complete tag, however the text goes on, what stands before the unfinished tag can be emitted at once |
| ThinkFilter.TurnResumes | hiterm-gui/src/ai_client.rs:1092-1114 | a first tag stays the first tag however the text goes on |
| ThinkFilter.InlineThinkFilter.Feed | hiterm-gui/src/ai_client.rs:1087-1125 | output and remaining state continue, for every later text, as the whole text would; the new mode and held-back text are those of the whole text's reading; nothing but an unfinished tag is held back; no empty segment |
| ThinkFilter.InlineThinkFilter.Flush | hiterm-gui/src/ai_client.rs:1127-1138 | the held-back text is emitted under the current mode |
| ThinkFilter.RouteStream | hiterm-gui/src/ai_client.rs:619-655 | for every way of cutting a text, the stream emitted after each delta and after the flush is a function of the text alone, equal to the one-shot reading |
| WatchTable.WatchConsistent | config/src/lib.rs:1314-1445 | watching a path keeps files, file map, path set and counts fitting together, with or without failures |
| WatchTable.WatchExact | config/src/lib.rs:1384-1445 | a path that did not become watched leaves the four collections as they were; exact registrations stay exact |
| WatchTable.WatchedIff | config/src/lib.rs:1384-1445 | a path ends up watched if and only if it was, or a watcher exists or can be created and the system accepts it or it is a file beside a watched file; no other path is affected |
| WatchTable.AcceptedIsWatched | config/src/lib.rs:1389-1445 | a new accepted file is registered through the path its name is cut from and counted there, anything else by itself |
| WatchTable.DroppedUnique | config/src/lib.rs:1448-1484 | dropping stale paths has one outcome, whatever their order |
| WatchTable.DropOneMore | config/src/lib.rs:1455-1483 | dropping one path after others drops the set |
| WatchTable.DroppedExactness | config/src/lib.rs:1448-1484 | registrations stay exact after dropping, when unwatching succeeds, if and only if no dropped direct path is still a counted directory and no emptied directory is still watched directly |
| WatchTable.DroppedExact | config/src/lib.rs:1448-1484 | so they do while no direct path is a watched file's directory |
| ConfigState.ConfigInner.Subscribe | config/src/lib.rs:1286-1294 | hands out an id that is not in use and never was |
| ConfigState.ConfigInner.Unsub | config/src/lib.rs:1296-1298 | removes that id and nothing else |
| ConfigState.ConfigInner.RemoveSubscribers | config/src/lib.rs:1308-1312 | removes the listed ids and nothing else |
| ConfigState.ConfigInner.WatchPath | config/src/lib.rs:1314-1445 | the table afterwards, including rollback when the system refuses, is `Watch` of the one before |
| ConfigState.ConfigInner.UnwatchStalePaths | config/src/lib.rs:1448-1484 | the table afterwards is the old one without the inactive paths, with recounted directories |
| ConfigState.ConfigInner.ApplyLoaded | config/src/lib.rs:1502-1581 | the whole state after a good or failed load; the subscribers to notify are those of that moment |
| ConfigState.ConfigInner.EnableDeferredWatchers | config/src/lib.rs:1587-1602 | watches what was deferred, or drops it when reload is off |
| ConfigState.ConfigInner.UseThisConfig | config/src/lib.rs:1607-1638 | replaces the configuration, clears the error, next generation |
| ConfigRuns.TableAlwaysConsistent | config/src/lib.rs:1314-1602 | in every state of every run, whatever the system answers, watched files are the keys of the file map, inside the watched paths, and each directory's count is the number of its files and not zero |
| ConfigRuns.RegistrationsAlwaysExact | config/src/lib.rs:1314-1602 | over every run in which unwatching succeeds and direct paths are not watched files' directories, the system watches exactly the counted directories and the direct paths |
| ConfigRuns.DirsAlwaysParents | config/src/lib.rs:1384-1400 | in every state of every run a watched file is watched through the path that its last component is cut from, the root through itself |
| ConfigRuns.LoadWatches | config/src/lib.rs:1511-1581 | after any load, good or failed, by the setting then in force: with reload off nothing is watched or owed; deferred, exactly the configuration file, its resolved form and the extra paths are owed; otherwise nothing else is watched, those already watched stay, and all are watched when the system accepts them |
| ConfigRuns.OwedInOrder | config/src/lib.rs:1517-1573 | owed paths come once each: the file, its resolved form when it differs, the extra paths |
| ConfigRuns.LoadReplaces | config/src/lib.rs:1502-1560 | a good load replaces the configuration, clears the error and advances the generation; a failed one only leaves its message; the warnings are the load's; subscribers are untouched |
| ConfigRuns.EnableWatches | config/src/lib.rs:1587-1602 | enabling ends the deferral, watches what is owed if reload is on, and owes nothing afterwards; it does nothing when watching was not deferred |
| ConfigRuns.DeferredEqualsEager | config/src/lib.rs:1566-1602 | deferring, any loads and replacements, then enabling gives the watches of not deferring, if and only if nothing is owed or reload is still on |
| ConfigRuns.DeferredLoadsEqualEager | config/src/lib.rs:1502-1602 | for any sequence of loads it always does |
| ReloadProtocol.OrderedStep | config/src/lib.rs:1719-1733 | every atomic step keeps what orders the reloads, with stale reads of the epoch allowed |
| ReloadProtocol.LatestReloadWins | config/src/lib.rs:1719-1746 | in every interleaving applied ids strictly increase, each applied load is its own reload's, and when none is in flight the last applied is the last started |
| ReloadProtocol.GenerationsAlways | config/src/lib.rs:1539-1564 | generation counts successes, the configuration is the last success's, and an error is recorded exactly while the last outcome is a failure |
| ReloadProtocol.GenerationDeterminesConfig | config/src/lib.rs:1655-1661 | handles of equal generation hold equal configurations, in every run; the generation never decreases |
| ReloadProtocol.RemovalIsPrecise | config/src/lib.rs:1735-1746 | a subscriber leaves the table only by its own unsubscription or refusal; when no reload is in flight those have exactly left |
| ReloadProtocol.EveryoneIsCalledOnce | config/src/lib.rs:1735-1740 | in every interleaving a reload that has applied its load calls back exactly the subscribers present at that moment, none twice, and all of them before it finishes |
| ColorSchemes.BuildDefaultSchemes | config/src/lib.rs:185-202 | the table in which the last parsed scheme of a name or alias wins |
| ColorSchemes.LastAnswerWins | config/src/lib.rs:185-202 | a name belongs to the last entry that parses and has it as name or alias, and to nobody when there is none |
| ColorSchemes.ColorSchemeRegistry.GetScheme | config/src/lib.rs:219-234 | answers from the cache or loads |
| ColorSchemes.ColorSchemeRegistry.LoadScheme | config/src/lib.rs:236-274 | loads the first scheme that has the name, under all its names; a primary name that does not parse ends the search |
| ColorSchemes.FirstAnswerLoads | config/src/lib.rs:236-274 | a name that is not cached is answered by the first entry with that name or alias: its palette enters the cache under its name and all its aliases and nothing else changes; no answer when it does not parse |
| ColorSchemes.CachedOrUnknown | config/src/lib.rs:219-274 | a cached name is answered from the cache, a name nobody has by nothing; neither changes the cache |
| ColorSchemes.LazyAgreesWithEager | config/src/lib.rs:185-274 | after every sequence of lookups the registry answers like the eager table, if and only if the table is coherent |
| ColorSchemes.NoCollisionsAgree | config/src/lib.rs:185-274 | it does when names and aliases of different schemes never collide |
| Eviction.OldestPos | hiterm-gui/src/ai_conversations.rs:167-173 | the first of the oldest entries that are not active, or all are active |
| Eviction.EvictionOptimal | hiterm-gui/src/ai_conversations.rs:163-183 | for every list: how many stay, the active one stays, and no evicted entry is newer than an inactive one that stays |
| Eviction.EvictionKeepsOrder | hiterm-gui/src/ai_conversations.rs:163-183 | with distinct ids min(n, 100) entries stay, in their order |
| Eviction.SortDistinct | hiterm-gui/src/ai_conversations.rs:276-277 | sorting newest first keeps the ids and their distinctness |
| Conversations.ConversationStore.FindOldest | hiterm-gui/src/ai_conversations.rs:167-173 | the scan for the minimum finds the first of the oldest |
| Conversations.ConversationStore.EvictExcess | hiterm-gui/src/ai_conversations.rs:163-183 | the loop evicts as specified and removes the file and outputs of exactly the evicted ids, in that order |
| Conversations.ConversationStore.EnsureActive | hiterm-gui/src/ai_conversations.rs:206-244 | returns the usable active conversation and writes nothing, or goes through exactly the writes of a new one |
| ConversationRuns.ActiveIsReturned | hiterm-gui/src/ai_conversations.rs:210-221 | when the conversation the index calls active is on file and readable it is returned with the messages on file, whatever they are, and nothing is written |
| ConversationRuns.OtherwiseNew | hiterm-gui/src/ai_conversations.rs:223-244 | in every other case a new conversation without messages is returned and written |
| Conversations.ConversationStore.StartNewActive | hiterm-gui/src/ai_conversations.rs:284-307 | file, evictions, index: the disk goes through exactly these states |
| Conversations.ConversationStore.SaveActiveMessages | hiterm-gui/src/ai_conversations.rs:247-279 | file with the old summary, then the index |
| Conversations.ConversationStore.SwitchActive | hiterm-gui/src/ai_conversations.rs:312-320 | fails without writing when the target cannot be read |
| Conversations.ConversationStore.UpdateSummary | hiterm-gui/src/ai_conversations.rs:323-349 | index first, then the file, only for a listed id |
| ConversationRuns.CrashesAreRecoverable | hiterm-gui/src/ai_conversations.rs:206-349 | after any sequence of operations, each cut off anywhere, the index has at most 100 entries of distinct ids and lists its active id |
| ConversationRuns.EnsureActiveFindsFile | hiterm-gui/src/ai_conversations.rs:206-244 | from whatever a crash left, the returned id is active, listed and on file with the returned messages |
| ConversationRuns.NewActiveAfter | hiterm-gui/src/ai_conversations.rs:284-307 | the disk after a new conversation: exactly the evicted ids lose their files |
| ConversationRuns.NewActiveListed | hiterm-gui/src/ai_conversations.rs:284-307 | a new conversation is active and listed with the placeholder and a count of 0; min(n + 1, 100) entries are listed; none that went is newer than an old one that stays |
| ConversationRuns.NewActiveOnFile | hiterm-gui/src/ai_conversations.rs:284-307 | its file holds the placeholder and no messages; entries that went have neither file nor outputs; every other file is as it was |
| ConversationRuns.NewActiveOrder | hiterm-gui/src/ai_conversations.rs:284-307 | its file is written first and the index last, with nothing but removals between |
| ConversationRuns.SaveEffect | hiterm-gui/src/ai_conversations.rs:247-279 | a save changes one file and one entry and nothing else |
| ConversationRuns.SaveOnDisk | hiterm-gui/src/ai_conversations.rs:247-279 | messages go under the summary on file or else the placeholder; the listed entry gets time and count; all else stays, newest first; nothing happens without an id |
| ConversationRuns.SwitchEffect | hiterm-gui/src/ai_conversations.rs:312-320 | the target becomes active and nothing else changes; nothing at all when it cannot be read |
| ConversationRuns.SummaryEffect | hiterm-gui/src/ai_conversations.rs:323-349 | the summary enters the listed entry, where it stands, and its file when readable, index first; an unlisted id changes nothing |
| ConversationRuns.IndexAgreesWithFiles | hiterm-gui/src/ai_conversations.rs:206-349 | over every crash-free run ids are distinct and exactly those with files, counts and summaries match, newest first |
| ToolCalls.CollectFragments | hiterm-gui/src/ai_client.rs:630-646 | every index has the buffer that its own fragments build |
| ToolCalls.AssembleCalls | hiterm-gui/src/ai_client.rs:575-677 | the named calls in ascending index order, each built from its own fragments |
| ToolCalls.OwnFragments | hiterm-gui/src/ai_client.rs:632-634 | the fragments of call k are, in arrival order and as often as they arrived, those with index k, and for k = 0 those without an index |
| ToolCalls.OwnMembers | hiterm-gui/src/ai_client.rs:632-634 | a fragment counts for call k if and only if it arrived and carries index k, or none and k is 0 |
| ToolCalls.IndicesApart | hiterm-gui/src/ai_client.rs:633-634 | fragments of different indices never reach the same buffer |
| ToolCalls.CallsByIndex | hiterm-gui/src/ai_client.rs:633-672 | an index is used if and only if a fragment belongs to it; the calls are, in index order, those of the indices whose fragments name one |
| ToolCalls.OneFragment | hiterm-gui/src/ai_client.rs:635-645 | a fragment replaces the id and the name it carries, keeps the rest, and adds its argument text whole while fewer than 65536 bytes are there |
| ToolCalls.NamedOnes | hiterm-gui/src/ai_client.rs:663 | the calls with a name, in order and as often, and no others |
| ToolCalls.InterleavingIndependent | hiterm-gui/src/ai_client.rs:630-677 | two streams with the same fragments per index give the same calls |
| ToolCalls.ArgumentsArePrefix | hiterm-gui/src/ai_client.rs:641-645 | the arguments are those of the first fragments, whole, up to the first point at which the cap is reached |
| ToolCalls.ArgumentsComplete | hiterm-gui/src/ai_client.rs:641-645 | nothing is cut off if and only if no text arrives once the cap is reached |
| ToolCalls.LatestIdWins | hiterm-gui/src/ai_client.rs:635-637 | the latest id sent counts |
| ToolCalls.LatestNameWins | hiterm-gui/src/ai_client.rs:638-640 | the latest name sent counts |
| CodexCalls.CallBuffer.UpsertCall | hiterm-gui/src/ai_client.rs:1002-1017 | finds the item's buffer or appends an empty one; nothing for an empty id |
| CodexCalls.CallBuffer.TakeEvent | hiterm-gui/src/ai_client.rs:877-904 | one event changes only its own item's buffer |
| CodexCalls.StreamCalls | hiterm-gui/src/ai_client.rs:842-926 | the named calls in first-seen order from the events before completion, or the failure's message |
| CodexCalls.FirstSeenOrder | hiterm-gui/src/ai_client.rs:1002-1017 | item ids in the buffer are distinct, not empty, and ordered by their first events |
| CodexCalls.CallsDependOnOwnEvents | hiterm-gui/src/ai_client.rs:842-926 | each call depends on its own item's events alone |
| CodexCalls.OwnEvents | hiterm-gui/src/ai_client.rs:877-904 | the events of an item are, in order and as often as they arrived, the function-call items with its id and the argument deltas that name it |
| CodexCalls.BuffersByItem | hiterm-gui/src/ai_client.rs:877-926 | there is one buffer per item that such an event is about, built from those, and no other |
| CodexCalls.OneEvent | hiterm-gui/src/ai_client.rs:884-904 | an item event replaces what it carries when not empty; a delta adds its text whole while fewer than 65536 bytes are there |
| CodexCalls.LatestItemWins | hiterm-gui/src/ai_client.rs:877-894 | the latest call id, name and whole arguments count |
| CodexCalls.WholeThenDeltas | hiterm-gui/src/ai_client.rs:888-904 | deltas are appended to the latest whole arguments up to the cap |
| HistoryTranslation.Translate | hiterm-gui/src/ai_client.rs:698-763 | items in order, system texts joined by blank lines; a lone system text becomes a user message |
| HistoryTranslation.CallTurnAdds | hiterm-gui/src/ai_client.rs:716-728 | an assistant's turn with calls adds exactly one call item per call, in order, whatever its content |
| HistoryTranslation.ResultAdds | hiterm-gui/src/ai_client.rs:707-714 | a tool's result adds exactly one output item with its id and content |
| HistoryTranslation.TextAdds | hiterm-gui/src/ai_client.rs:731-752 | any other message adds its text if it has one and is not a system text, typed by the speaker |
| HistoryTranslation.SystemTextsAt | hiterm-gui/src/ai_client.rs:735-741 | the system texts are the contents, not empty, of the system messages, in order |
| HistoryTranslation.JoinPush | hiterm-gui/src/ai_client.rs:736-739 | each further text is joined after a blank line, the first without |
| HistoryTranslation.TranslationPreserves | hiterm-gui/src/ai_client.rs:702-752 | calls and results keep content and common order; every other text appears once, in order |
| HistoryTranslation.NothingIsLeftOut | hiterm-gui/src/ai_client.rs:702-763 | the input is not empty when there is a call, a result or a text |
| HistoryTranslation.ContentTypes | hiterm-gui/src/ai_client.rs:742-751 | assistant texts are outputs, all others inputs |
| HistoryTranslation.TextLossIsCallTurnText | hiterm-gui/src/ai_client.rs:717-729 | no text is lost if and only if no tool-call turn carries text |
| HistoryTranslation.PairingPreserved | hiterm-gui/src/ai_client.rs:702-752 | every result item follows its call item if and only if every tool result follows its call |
| Windows.GuiFrontEnd.KeepWindows | hiterm-gui/src/frontend.rs:1070-1082 | the first holder of each wanted id keeps it; the other windows and the ids left over, in order |
| Windows.FreeInOrder | hiterm-gui/src/frontend.rs:1070-1099 | the ids left over are the wanted ones not taken, in their order |
| Windows.GuiFrontEnd.ReconcileWorkspace | hiterm-gui/src/frontend.rs:1064-1099 | which windows keep, switch and close, with min(known, mux) windows afterwards and the forgotten spawned ids |
| Windows.OutcomeMatches | hiterm-gui/src/frontend.rs:1064-1099 | the new map is injective into the workspace's ids |
| Windows.SecondRunIsIdle | hiterm-gui/src/frontend.rs:1064-1099 | an immediate second run switches and closes nothing |
| BytecodeCache.EncodeCache | config/src/config.rs:1316-1330 | magic, signature length, signature, source hash and bytecode, in the documented layout |
| BytecodeCache.EncodedLayout | config/src/config.rs:1316-1330 | byte by byte: four of magic, two for the signature's length, the signature, eight for the source hash, the bytecode, both numbers least significant byte first |
| BytecodeCache.DecodeCache | config/src/config.rs:1333-1371 | returns a bytecode if and only if the file is its encoding for this header and source and the signature's length fits 16 bits |
| BytecodeCache.EncodedOnce | config/src/config.rs:1316-1371 | a file stands for one signature, one source hash and one bytecode |

## Left out

- HTTP, retries, authentication and token refresh: library plumbing; a cancelled stream is a shorter one.
- `reasoning_delta_text` and the parsing of server-sent events: lookups in foreign JSON; events reach the models already parsed.
- `split_visible_reasoning_blocks` and the migration of old messages on load: messages are returned as stored.
- A claim that the concatenated tokens contain no tag: removing a block can join `<thi` and `nk>`; the claim proved is per run of text.
- Poisoned locks, and wrap-around of the epoch, generation and subscriber counters at 64 bits: unbounded here.
- `Configuration::overridden`: its handle carries a configuration that was never in force.
- The watcher thread, its event filter and its delay: they only call `reload`.
- `show_error` and the publication of the Lua state after a load: effects outside the component.
- `ColorSchemeRegistry::clone`: returns only what is loaded. Concurrent lookups are taken one at a time.
- The cwd index of the conversation store, and two threads updating one index at a time: there is no lock and no promised order.
- File removals that fail during eviction: taken to succeed in the model; a failed one leaves an unlisted file.
- The asynchronous creation of windows after `reconcile_workspace`, and its choice of the active workspace: outside code decides them.
- The conversion of tool definitions and the rest of the Responses request: field-by-field copying.
