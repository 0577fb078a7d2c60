# acpruntime, verified

A Dafny model of the stateful core of `acpruntime`: the JSON-RPC peer (`rpc.go`), the session driver
(`session_driver.go`), the session start and metadata code (`session_service.go`), and three small algorithms.
Check the whole project with `dafny verify dfyconfig.toml`.

## How it is built

- **Wire.** `JsonGrammar` is RFC 8259, sections 2 to 7, as syntax trees and their text, with UTF-8 defined on
  bytes (one `char` per byte); `JsonOctets` proves that definition to be the encoding of code points. `JsonScanner` is the scanner as functions, `JsonLoops` and `RpcLoops` are its index
  loops as methods proved to compute them. `JsonTokens`, `JsonValues` and `RpcParsing` prove scanner and envelope
  parser equal to the grammar. `RpcPrinting`, `RpcRoundTrip`, `RpcErrors`, `RpcStream`, `Decimal` and `Framing` cover
  printing, request ids, line framing over a bounded buffer, and the round trips of messages, error replies and a
  whole stream.
- **Calls.** `PeerCalls` is the call protocol as a step machine: each lock section, channel operation and frame
  write is one step, and theorems hold of every reachable state. `PeerTable` is the same table as a class whose
  methods are proved to perform those steps. `PeerRuns` reads each call's outcome and frames off the run.
- **Config fence.** `ConfigFence` holds the three fence fields and every operation on them. `ConfigHistory` decides
  trust from the history of events alone. `ConfigWorld` adds a FIFO wire and a provider, with setters that overlap,
  fail and are cancelled; `ConfigCancel` decides for every attainable world whether a trusted snapshot can still go
  wrong; `ConfigTrust` says what follows for runs from a session start, and `ConfigMode` treats the cached mode.
  `ConfigAliases` is the alias loop of the initial config amid the notifications read while it runs.
- **Turns.** `Turns` is the turn lifecycle as a step machine, `TurnThread` its history, `TurnOutput` the read loop,
  the read-idle callbacks and the output text around it, `TurnLog` which steps of the run its record counts, and
  `TurnMisses` when a turn's text can come out incomplete.
- **Updates and read model.** `Orphans` groups updates that have no turn; `ReadModel` is the bounded thread and the
  two tool maps.
- **Driver.** `SessionDriver` is the class with the source's fields; each method is one critical section, proved to
  perform the step that the modules above define.
- **Algorithms.** `SessionMeta` (deep merge, prompt projection) and `CodexConfig` (flattening) over the trees of
  `Trees`; `ProcessTree`; `Versions`. `Strings` and `Options` hold what they share.

Where one lock section of the source is split by another goroutine, so is the model: a turn's text is read and its
completion claimed in two steps, and the send and the close of a completion come after the lock is released.

Some statements one might expect are false of the code, and are shown false together with exactly when they hold:

- A line that is a valid JSON object can be refused: keys and methods are unquoted with Go's rules, which know
  neither `\/` nor surrogate escapes. An object within the depth cap is accepted exactly when no key and no method
  uses one of the two, every method is a string and every error decodes (`RpcEscapes.AcceptedExactly`).
- Trust does not survive every cancelled setter. One cancelled while its request is at the provider always opens a way
  to a false trusted snapshot. One cancelled after its answer does exactly when the last notification on the wire lies
  ahead of that answer, is no longer the provider's, and no other request or awaited answer covers it: such a stale
  notification is then read with no setter left to distrust it, though the provider never acts again. One cancelled
  with the answer already in hand never does (`ConfigCancel.CancelBreaksExactly`). In runs whose cancellations are all
  harmless a trusted snapshot is always the provider's.
- A turn's text is not always everything handled while it was current. A settle that runs off the read loop and is
  about to read an open turn's text can miss some exactly as long as the loop has not ended
  (`TurnMisses.OffLoopSettleMissesExactly`); one on the loop, or reading after its end, takes the whole text
  (`TurnOutput.OutputText`).
- After a refused alias the initial config does not always need an RPC for the next one: it is skipped exactly when
  the last notification read since then is a snapshot that reports the alias (`ConfigAliases.LaterAliasIsVouchedFor`).
- Flattening does not give every leaf an override: exactly a leaf under empty keys alone is dropped
  (`CodexConfig.OneOverridePerLeafExactly`). And the overrides give the configuration back exactly when no key has a
  dot, no inner map is empty and no key at the top is empty (`CodexConfig.FlattenIsInvertibleExactly`).
- Deep merge is associative exactly when no scalar of the middle map separates a map of the first from one of the last
  in which some path of the first's is open (`SessionMeta.MergeIsAssociativeExactly`).

The comment on `pruneToolCallsLocked` speaks of dropping the oldest keys; the code drops keys in map order, and the
model follows the code. A `tool_call_update` for an unknown call stores a snapshot whose own id field is empty, as
in the code.

## Model

| member | source | states |
|---|---|---|
| JsonTokens.NumberAutomaton | rpc.go:1104-1145 | the number automaton accepts exactly RFC 8259 section 6 |
| JsonTokens.BodyComplete | rpc.go:936-976 | every string body of the grammar (escapes, no raw controls, valid UTF-8) is scanned to its closing quote |
| JsonTokens.ScanStringSound | rpc.go:936-976 | whatever the string scanner accepts is a string body of the grammar |
| JsonTokens.ScanLiteralSound | rpc.go:1082-1102 | an accepted literal is a keyword or a number of the grammar, ended by a delimiter |
| JsonOctets.Utf8ValidExactly | rpc.go:966 | a text is valid UTF-8 if and only if it is the octet encoding of some sequence of code points without surrogates |
| JsonValues.ValueComplete | rpc.go:994-1080 | every value nested within the depth cap is scanned to its end, whatever follows |
| JsonValues.ValueSound | rpc.go:994-1080 | a successful scan yields a value of the grammar whose text is exactly what was consumed, within the cap |
| JsonValues.ScannerEqualsGrammar | rpc.go:994-1157 | scanning succeeds with a given rest if and only if the text is whitespace, a value at most 128 composites deep, and that rest |
| JsonLoops.SkipJsonSpace | rpc.go:1147-1157 | the index loop stops where the grammar's whitespace stops |
| JsonLoops.ScanJsonString | rpc.go:936-976 | the index loop over escapes, hex digits and UTF-8 returns the body, its escape mark and the next index exactly as the scanner does |
| JsonLoops.IsValidJsonNumber | rpc.go:1104-1145 | the loop version of the number automaton decides the same texts |
| JsonLoops.ScanJsonObject | rpc.go:1016-1051 | the object loop agrees with the recursive scanner, and terminates on the position |
| JsonLoops.ScanJsonArray | rpc.go:1053-1080 | the array loop agrees with the recursive scanner |
| JsonLoops.ScanJsonValue | rpc.go:994-1014 | the scanner entry agrees with the grammar's scanner at depth zero |
| RpcMessages.InterningIsIdentity | rpc.go:863-934 | interning a method name never changes it |
| RpcParsing.TrimStops | rpc.go:1178-1199 | trimming removes exactly the surrounding JSON whitespace |
| RpcParsing.EnvelopeComplete | rpc.go:709-786 | an envelope whose members are all admissible is accepted, with the fields of its last members |
| RpcParsing.ParserEqualsGrammar | rpc.go:709-786 | a line is accepted if and only if it is an RFC 8259 object within the depth cap with admissible members, and the result is exactly the spans of the last member of each name |
| RpcLoops.TrimJsonSpace | rpc.go:1178-1199 | the two trimming loops compute the trimmed text |
| RpcLoops.ParseRpcMessage | rpc.go:709-786 | the index loop of the envelope parser computes the parser that equals the grammar |
| RpcEscapes.UnquoteExact | rpc.go:982-992 | unquoting succeeds exactly on bodies without solidus and surrogate escapes, and yields the text they mean |
| RpcEscapes.MeaningIsStandard | rpc.go:982-992 | what an escape means: its entry in RFC 8259's table, or the UTF-8 sequence that decodes to the number its four hexadecimal digits spell |
| RpcEscapes.DecodedExact | rpc.go:852-861 | a key or method is read as JSON means it, or the line is refused |
| RpcEscapes.AcceptedExactly | rpc.go:709-786 | an object of the grammar within the depth cap is accepted if and only if its keys and methods avoid the two escapes, methods are strings and errors decode |
| RpcEscapes.UnsupportedEscapeRejects | rpc.go:709-786 | one such escape in any key or in a method refuses the whole line |
| RpcEscapes.SolidusKeyIsRejected | rpc.go:982-992 | a concrete JSON object that the parser refuses |
| RpcPrinting.MethodValueIsQuote | rpc.go:574-625 | known method names are copied with the bytes that quoting them would give |
| RpcPrinting.FastPathIsGeneral | rpc.go:497-549 | fast and general printing agree on every message, except exactly a result that also carries params |
| RpcRoundTrip.QuoteDecodes | rpc.go:564-572 | quoting a printable name and decoding it gives the name back |
| RpcRoundTrip.MessageRoundTrip | rpc.go:497-549 | a printed request, notification or result parses to the same id, method, params and result |
| RpcRoundTrip.IssuedRequestArrives | rpc.go:336-340 | a request under an issued id arrives with its method and params, and its id, echoed bare or quoted, resolves to that call |
| RpcErrors.ErrorReplyRoundTrip | rpc.go:551-562 | a printed error reply parses back to the same code, message, data and id, for every decoder that reads error objects by name |
| RpcStream.StreamRoundTrip | rpc.go:475-486 | any sequence of requests, notifications, results and error replies within the frame limit is read back in order, through framing and parsing |
| Decimal.ValueOfDecimal | rpc.go:336-340 | a decimal print has the value it was printed from |
| Decimal.ParsePositiveInt64 | rpc.go:1201-1217 | succeeds exactly on non-empty digit strings below 2^63, returns the value, and no step leaves 64 bits |
| Decimal.EchoResolves | rpc.go:1159-1171 | a bare or quoted echo of an issued id, with any padding, resolves to that id |
| Decimal.ResolvedIdIsTheEchoedOne | rpc.go:1159-1171 | an id resolves to a number only from a numeral of that number, bare or quoted |
| Framing.SplitIsInverse | rpc.go:672-707 | joining the newline split gives the stream back, and no piece holds a newline |
| Framing.ReadAllIsSplit | rpc.go:672-707 | reading delivers the newline split, one trailing CR removed, up to the first piece over the limit, and fails exactly there |
| Framing.FirstUnfitMeaning | rpc.go:115-119 | the too-large error arises for a piece whose wire size is over the limit and for no earlier one |
| Framing.LinesAreBounded | rpc.go:672-707 | no delivered line is empty or longer than 16 MiB |
| Framing.EitherEndingIsRead | rpc.go:672-707 | of lines written with either line ending exactly the non-empty texts are delivered, in order |
| Framing.BufferedReader.ReadSlice | rpc.go:672-698 | the reader's slices, for every buffer size |
| Framing.ReadMessageLine | rpc.go:672-707 | the accumulating loop's result depends on the stream alone, not on the buffer size |
| Framing.ReadLines | rpc.go:184-215 | repeated reading delivers exactly the lines of the stream |
| PeerCalls.StepKeepsInv | rpc.go:295-413 | every step of callers, read loop, cancellation, failed writes and Close keeps the protocol's invariant |
| PeerCalls.ChannelDiscipline | rpc.go:295-413 | each reply channel has one remover, at most one message and one close; no send or close ever meets a closed or full channel |
| PeerCalls.ResultIsOwn | rpc.go:336-380 | a call that returns a result or remote error took a response with its own id, and returns that response's error if it has one, else its result |
| PeerCalls.CancelFrames | rpc.go:362-378 | at most one cancel frame, after the request frame, and only when the cancellation removed the pending entry |
| PeerCalls.WaitingIsNeverStuck | rpc.go:355-380 | a waiting call is in the table, or being answered, or can read; after close it can always return |
| PeerCalls.EchoReachesItsCall | rpc.go:399-413 | an echo of a pending id reaches exactly that call and disturbs no other |
| PeerRuns.CallEndsAsItWent | rpc.go:336-380 | in every run a call ends with a write error if and only if its write failed, cancelled if and only if its context was seen done, as closed only after a close, and otherwise with what a response under its id said |
| PeerRuns.FramesTellTheRun | rpc.go:341-372 | a call's frames are its request once written, and a cancel frame if and only if its cancellation removed the pending entry and writing that frame succeeded |
| PeerTable.Peer.StartCall | rpc.go:336-350 | up to its select a call waits under the next id, in the table with its own channel and its request written; after a failed write the table is as before |
| PeerTable.Peer.TakeForReply | rpc.go:399-407 | the locked lookup removes the entry of the response's id and nothing else |
| PeerTable.Peer.ResolvePending | rpc.go:399-413 | the pending call's channel gets the message and is closed; otherwise nothing changes |
| PeerTable.Peer.Delete | rpc.go:341-378 | removal after a failed write or a cancelled context, and whether the entry was still there |
| PeerTable.Peer.Close | rpc.go:295-312 | every pending channel is closed exactly once and the table emptied, in any map order |
| ConfigHistory.MayTrustIsUndisturbed | session_driver.go:410-435 | the tests of a response hold if and only if its begin found no other setter and its interval holds no other begin or notification; the pending test is implied |
| ConfigHistory.TrustedExactlyWhenExplained | session_driver.go:264-276 | the snapshot is trusted if and only if the last config event of the history is an authoritative install, and the cached options and raw config are that event's |
| ConfigHistory.PlayInv | session_driver.go:382-395 | over every history pending counts the open setters and the version counts the disturbing events |
| ConfigHistory.CachedModeIsTheLast | session_driver.go:397-408 | the cached mode is that of the last mode notification or accepted mode setter |
| ConfigWorld.StepKeepsStructural | session_driver.go:382-435 | every step, cancellations included, keeps pending equal to the open setters, at most one undisturbed setter, one answer on the wire per waiting one, and no trust while one is under way |
| ConfigWorld.StepKeepsInv | session_driver.go:382-435 | every step of setters, read loop and provider but a cancellation keeps the snapshot, the answers under way and the last notification tied to the provider's options |
| ConfigCancel.BreakableExactly | session_driver.go:264-276 | in every attainable world, a later run without cancellations can end in a false trusted snapshot if and only if an abandoned request may still act, a stale last notification is uncovered, a stale answer can become trusted, or the trusted snapshot is false already |
| ConfigCancel.CancelBreaksExactly | session_driver.go:410-416 | cancelling one setter of a world that cannot go wrong otherwise makes that possible if and only if its request is at the provider, or its answer was all that covered a stale last notification |
| ConfigTrust.TrustedMeansTrue | session_driver.go:382-435 | in every reachable state with no undelivered notification a trusted snapshot equals the provider's options, however setters overlap, fail or are harmlessly cancelled |
| ConfigTrust.SuppressedIsRedundant | session_service.go:490-502 | a suppressed initial-config RPC asks for a value that the provider already has |
| ConfigTrust.PendingCountsSetters | session_driver.go:382-395 | in every attainable state pending counts the setters between begin and end, and an undisturbed setter is alone and may be trusted |
| ConfigTrust.CancellationBreaksTrust | session_driver.go:410-416 | from every reachable state, cancelling any setter whose request is at the provider opens a run to a false trusted snapshot |
| ConfigTrust.LateCancellationBreaksTrustExactly | session_driver.go:410-416 | cancelling an answered setter does so if and only if it exposes a stale notification ahead of its answer |
| ConfigTrust.CancellationOfDeliveredIsHarmless | session_driver.go:410-416 | cancelling one whose answer has been handed over never does |
| ConfigTrust.FirstSetterMayBreakTrust | session_driver.go:410-416 | for every session start and request, the first setter can be cancelled to that effect |
| ConfigTrust.AnsweredSetterMayBreakTrust | session_driver.go:410-416 | for every session start and request, a reachable state in which an answered first setter exposes a stale notification |
| ConfigAliases.SetterLeavesTrust | session_driver.go:410-435 | amid any notifications a setter leaves the snapshot trusted if and only if it was answered with one, was alone, and nothing was read between its begin and its end |
| ConfigAliases.LaterAliasIsVouchedFor | session_service.go:471-502 | after a refused alias the next one needs no RPC if and only if the last notification read since the refused setter ended is a snapshot that reports it |
| ConfigMode.ModeTestComparesAnnounced | session_service.go:524-548 | before any setter and with no notification under way, the initial-mode test passes for the mode announced last and for no other |
| ConfigMode.ModeTestIsRight | session_service.go:524-548 | with a provider that announces its mode changes, it passes exactly for the provider's own mode |
| ConfigFence.RawConfigExactly | session_driver.go:251-262 | under each non-empty id the raw config has the value of the last option of that id that has one, under mode else the mode, and nothing else |
| ConfigFence.SnapshotIsShown | session_driver.go:231-249 | the read model shows every option of a snapshot field by field |
| Turns.StepKeepsInv | session_driver.go:313-596 | every step of the lifecycle keeps single flight, status, numbering, completion and thread in order |
| Turns.AtMostOneUnfinished | session_driver.go:437-477 | at most one turn is unfinished; running means a current turn on an open driver, ready means none |
| Turns.ClosedIsAbsorbing | session_driver.go:313-323 | after a close no run reopens the driver or starts a turn |
| Turns.WinnerIsFirstOffer | session_driver.go:528-532 | a turn's result is the first one offered by prompt, timer, Close or Delete |
| Turns.WinnerHasItsCause | session_driver.go:528-532 | the first prompt end, timer or close of a turn in the run decides: the prompt's own result, a cancellation, or the closing operation's failure |
| Turns.CompletionCarriesOneResult | session_driver.go:528-575 | the completion channel carries exactly that result, once, and is closed once; the cancel timer is armed at most once |
| Turns.FinishingNeverStalls | session_driver.go:325-337 | on a closed driver, or once claimed, every turn has an enabled step towards its closed completion, and no step leads away |
| TurnThread.ThreadIsDialogue | session_driver.go:454-468 | the full thread is user entries, each followed at once by its own assistant entry or none, with strictly increasing turn numbers |
| TurnThread.EntriesSayTheTurns | session_driver.go:454-568 | in every run an entry is in the full thread if and only if it is some turn's prompt under that turn's user id, or the text of the first result offered to a turn past its detach, if that completed it |
| TurnThread.PromptIsTheStarters | session_driver.go:437-469 | a turn's prompt is that of the step that started it |
| TurnThread.ThreadIdsAreUnique | session_driver.go:544-548 | no two thread entries share an id |
| TurnOutput.RunRefinesLifecycle | session_driver.go:479-510 | every run of read loop, callbacks and actors is a run of the lifecycle |
| TurnOutput.IdleOrdering | rpc.go:217-248 | an idle callback runs at most once, and not before every line buffered at its response's dispatch was handled |
| TurnOutput.OutputText | session_driver.go:494-510 | a completed turn's text is a prefix of the messages handled while it was current, covers the buffered ones, and is all of them when the settle ran on the read loop or read the text after the loop's end |
| TurnLog.CompletionIsOfTheRun | session_driver.go:479-510 | a completed turn's result carries its id, the text that it had at the one step that read it, and the prompt's own stop reason; the counts above are those of the steps that started it, dispatched its response and read it |
| TurnMisses.OffLoopSettleMissesExactly | session_driver.go:499-504 | from every reached state in which a settle off the loop is about to read an open turn's text, some continuation completes the turn without text that it has if and only if the read loop has not ended |
| TurnOutput.OffLoopSettleMayMissText | session_driver.go:499-504 | a complete run from the start in which that happens |
| Orphans.AutomatonIsBatch | session_driver.go:812-884 | for all event sequences the incremental automaton emits what the batch grouping of the whole sequence gives |
| Orphans.KindsAreTrimmedOnce | session_driver.go:818-884 | which kinds open or continue a generation and which one closes it, however often they are trimmed; no kind does both |
| Orphans.BindOrderIsBracketed | session_driver.go:812-871 | notifications in bind order are unbound metadata and generations: a body named by its message id or by the driver, items of one id and one message id, and as terminal the idle update or an empty one |
| Orphans.SdkIdsAreDistinct | session_driver.go:844-851 | ids assigned by the driver never repeat |
| Strings.TrimIsExact | session_driver.go:816-817 | trimming cuts white space off both ends and leaves none there |
| ReadModel.KeptIsWindow | session_driver.go:610-623 | appending and pruning one by one keeps the window of the full history |
| ReadModel.KeptIsTheEnd | session_driver.go:610-623 | that is exactly its last entries, as many as the cap, or all without one |
| ReadModel.PruneThread | session_driver.go:610-623 | the overlapping copy within one array leaves the trailing 256 entries for a limit of zero, all for a negative one, else as many as the limit |
| ReadModel.ToolsAlwaysAgree | session_driver.go:700-749 | over all runs and map orders both maps have the same keys, phases follow statuses, and after each update there are at most 128 calls for a limit of zero, else at most the limit |
| ReadModel.ListedCallShowsItsUpdates | session_driver.go:700-749 | over all runs and map orders a listed call and its operation come from the events of their own id alone since the call was last missing: no other call's, none from before it was dropped |
| ReadModel.ListedFieldsAreTheLast | session_driver.go:700-749 | over all runs and map orders each field of a listed call is what the last event of its id that sets the field gave since the call was last missing, and the operation's phase is that of the status |
| SessionDriver.Driver.StartTurn | session_driver.go:437-469 | performs the lifecycle's start under the next turn id, appends the prompt to the bounded thread, takes the open generation; rejects when closed or busy |
| SessionDriver.Driver.DetachTurn | session_driver.go:533-549 | the winner's lock section performs the lifecycle's detach |
| SessionDriver.Driver.FinishTurn | session_driver.go:528-575 | the first caller delivers, detaches and closes; a later one changes nothing |
| SessionDriver.Driver.ArmCancelTimer | session_driver.go:355-374 | arms the turn's timer once, only for the current turn of that id |
| SessionDriver.Driver.BeginCloseDriver | session_driver.go:313-323 | only the first close gets the turn in flight and the open generation |
| SessionDriver.Driver.BindOrphanUpdate | session_driver.go:812-857 | performs the automaton's step on the driver's fields |
| SessionDriver.Driver.ReplaceConfigOptions | session_driver.go:264-276 | installs a snapshot by the source's loop |
| SessionDriver.Driver.InstallOption | session_driver.go:417-433 | installs an answer, patching in place when the provider sent no snapshot |
| SessionDriver.Driver.SetAgentConfigOption | session_driver.go:410-435 | a setter ends trusted if and only if it got a snapshot, none was pending and no notification was read between its begin and its end; undisturbed and without a snapshot it patches exactly the options of its id |
| SessionDriver.Driver.SetAgentMode | session_driver.go:397-408 | undisturbed, a mode setter changes the cached mode exactly when it was accepted, and ends untrusted |
| SessionDriver.Driver.InitialConfigOptionEqual | session_service.go:490-502 | the reading loop decides the fence's test |
| SessionDriver.Driver.ApplyInitialConfigOption | session_service.go:471-484 | amid any notifications, every alias before the applied one failed its test and was refused, and the applied one passed the test of its moment without an RPC or was not refused; with nothing read meanwhile only the first can pass |
| SessionDriver.Driver.ApplyInitialConfigMode | session_service.go:524-548 | undisturbed, sends no RPC if and only if nothing is pending and the first alias that is a string and not blank is the cached mode; otherwise applies the first alias not refused, and tries the plain mode only when no alias is usable |
| SessionDriver.Driver.PruneToolCalls | session_driver.go:625-651 | drops down to exactly the cap, in any map order, and nothing under way while something over is kept |
| SessionDriver.Driver.StoreTool | session_driver.go:700-749 | the updated call takes each field that the event sets and keeps the others, it is listed whenever it finds room, no other call changes, and both maps stay in agreement |
| SessionDriver.Driver.HandleSessionUpdate | session_driver.go:669-751 | by the kinds of the wire: message text goes to the current turn, a mode update distrusts the snapshot and keeps its options, an options update replaces them, tool updates list their call, and every other kind leaves text, fence and tools alone; nothing happens for another session |
| SessionDriver.TextOfUpdate | session_driver.go:893-903 | an update's text is its text field, or else that of its first text block |
| SessionDriver.Driver.NumberPermission | session_driver.go:182-189 | unattributed permissions take numbers from the turns' counter |
| SessionMeta.MergedPaths | session_service.go:395-412 | the leaves and maps of a merge at every path: the overriding map's where it blocks the path, the base's elsewhere |
| SessionMeta.EmptyIsIdentity | session_service.go:395-412 | the empty map is a two-sided identity |
| SessionMeta.MergeIsIdempotent | session_service.go:395-412 | merging a map with itself changes nothing |
| SessionMeta.MergeIsAssociativeExactly | session_service.go:395-412 | merging is associative if and only if no scalar of the middle map separates a map of the first from one of the last in which a path of the first's is open |
| SessionMeta.MergeIsAssociative | session_service.go:395-412 | it is on maps that never put a map and a scalar at one path |
| SessionMeta.MergeSessionMeta | session_service.go:395-412 | the loops over both maps compute the merge in any map order |
| SessionMeta.ExtractSystemPrompt | session_service.go:338-363 | refuses exactly a reserved key that is no text and two prompts at once; otherwise systemPrompt replaces, appendSystemPrompt appends, blank is none, and the metadata comes back without the two keys |
| SessionMeta.PromptIsProjectedOnce | session_service.go:305-336 | under the reserved keys a successful start holds exactly what the profile projects for that replacing or appending prompt, nothing without one |
| SessionMeta.AgentIsProjectedThenConfigured | session_service.go:305-336 | the agent of a successful start went through the projection of that prompt and then through its config |
| SessionMeta.OtherPathsAreLayered | session_service.go:320-335 | elsewhere caller metadata overrides AgentConfig, which overrides the projection |
| SessionMeta.RefusedExactlyWhen | session_service.go:305-388 | exactly when a start is refused |
| CodexConfig.FlattenCodexConfig | native_codex.go:667-687 | the recursion appends the overrides of its argument, independent of map order |
| CodexConfig.OverridesAreTheLeaves | native_codex.go:667-687 | without an empty key at the top the overrides are the dotted paths of the leaves, each once, strictly ordered by path component |
| CodexConfig.OneOverridePerLeafExactly | native_codex.go:667-687 | there is one override per leaf if and only if no leaf lies under empty keys alone |
| CodexConfig.FlattenIsInvertibleExactly | native_codex.go:667-687 | rebuilding from the overrides gives the configuration back if and only if no key has a dot, no inner map is empty and no key at the top is empty |
| Strings.LessIsFirstDifference | native_codex.go:673 | keys are ordered by the first character in which they differ, a prefix first |
| ProcessTree.DescendantPIDs | stdio_proctree_unix.go:53-87 | with one parent each and no cycle through the root the loop ends with every descendant exactly once and nothing else |
| ProcessTree.NeverEndsOnACycle | stdio_proctree_unix.go:78-86 | with the root below itself the stack is never empty |
| Versions.CompareVersions | native.go:53-82 | negative if and only if at the first position where the versions differ the first has the smaller number, positive if and only if the second has, missing positions counting as zero |
| Versions.PartsAreNumbers | native.go:55-65 | what is compared: the decimal numbers, signed and within 64 bits, between the dots, up to the first field that is none |
| Versions.CompareIsPaddedLexicographic | native.go:66-81 | it is the lexicographic comparison of the numeric prefixes padded with zeros to any common length |
| Versions.VersionsAreOrdered | native.go:53-82 | a total preorder, antisymmetric in sign, whose classes are equality up to trailing zeros |

## Left out

- Transport failures that end the read loop, and decoding of the `error` member: the decoder is a parameter that accepts or refuses a raw value.
- Printing of names and error messages beyond printable ASCII, where Go's quoting is not JSON's.
- RpcStream.StreamRoundTrip: does not give back the version member, because the parser drops it unread.
- The reverse direction of the peer: inbound requests, their cancel functions, handlers, and raw-message observers.
- 64-bit wrap-around of the config version, the generation counter, the turn counter and issued ids: they are unbounded numbers here; what an id must satisfy to be parsed back is stated.
- ConfigTrust.TrustedMeansTrue: assumes that the provider answers each setter after applying it and queues a notification with each change of its own, that the start state agrees, and that the cancellations of the run are harmless, whose exact condition is `ConfigCancel.CancelBreaksExactly`.
- ConfigMode.ModeTestIsRight: assumes that a change of options alone keeps the provider's mode; without that the test still compares with the mode announced last. A setter's late effects do not matter, because the initial mode is the first thing a new driver is asked for.
- Intermediate turn events, their channel and its close, hooks, wall-clock times and durations.
- Timers, process spawn, signals and the parsing of `ps` output: a timer firing is a step, the process table is a value.
- A finishTurn caller that loses waits until the winner is done; only the read loop's wait matters and is modelled.
- TurnOutput.OutputText: a reader error delivers its last partial line as one more line before the loop ends.
- Orphans.BindOrderIsBracketed: assumes that incoming notifications carry no update id and no terminal mark of their own; what is sent or dropped on the updates channel after binding is not modelled.
- SessionDriver.Driver.ApplyInitialConfigOption: other setters do not run beside the alias loop, because the session is handed out only after the initial config.
- Permission snapshots and their pruning, operation targets inferred from payloads (a parameter), and the choice of an option by selector and category.
- The printing of TOML leaves, the parsing of the configuration's JSON, and native engine translation.
- CodexConfig.OverridesAreTheLeaves: an empty key at the top is dropped from the paths below it; what that costs in overrides is `CodexConfig.OneOverridePerLeafExactly`.
- Update in place of metadata maps: the source builds new maps, and so does the model.
