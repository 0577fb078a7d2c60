/**
 The session driver as the class it is: its fields, and each critical section as a method. Every method is
 proved to perform the step that the lifecycle, the fence, the orphan automaton and the read model define, and
 to leave everything else alone.
 */
module SessionDriver {
  import opened Options
  import opened Turns
  import Aliases = ConfigAliases
  import Config = ConfigFence
  import Decimal
  import Orphans
  import ReadModel
  import Strings

  /** The fields of a session/update that the driver looks at. */
  datatype SessionUpdate = SessionUpdate(
    kind: string, text: string, mode: string, configOptions: seq<Config.ConfigOption>, tool: ReadModel.ToolUpdate,
    updatedAt: Option<string>, commands: seq<string>)

  /** The descriptive part of the session's metadata. */
  datatype Info = Info(title: string, updatedAt: string, commands: seq<string>)

  datatype Kind = MessageKind | ModeKind | OptionsKind | InfoKind | CommandsKind | CallKind | CallUpdateKind | OtherKind

  /** The cases of the switch over update.SessionUpdate. */
  function KindOf(kind: string): Kind {
    if kind == "agent_message_chunk" || kind == "agent_message" || kind == "message" then MessageKind
    else if kind == "current_mode_update" then ModeKind
    else if kind == "config_option_update" then OptionsKind
    else if kind == "session_info_update" then InfoKind
    else if kind == "available_commands_update" then CommandsKind
    else if kind == "tool_call" then CallKind
    else if kind == "tool_call_update" then CallUpdateKind
    else OtherKind
  }

  function FirstText(blocks: seq<ReadModel.Block>): string {
    if blocks == [] then "" else if blocks[0].TextBlock? then blocks[0].text else FirstText(blocks[1..])
  }

  /** sessionUpdateText: the text field, or else the first text block of the content. */
  function UpdateText(u: SessionUpdate): string {
    if u.text != "" then u.text else if u.tool.content.Some? then FirstText(u.tool.content.value) else ""
  }

  function FenceAfter(f: Config.Fence, u: SessionUpdate): Config.Fence {
    match KindOf(u.kind)
    case ModeKind => Config.NotifyMode(f, u.mode)
    case OptionsKind => Config.NotifyOptions(f, u.configOptions)
    case _ => f
  }

  /** A session_info_update overlays what it carries, an available_commands_update replaces the commands. */
  function InfoAfter(i: Info, u: SessionUpdate): Info {
    match KindOf(u.kind)
    case InfoKind =>
      i.(title := if u.tool.title.Some? then u.tool.title.value else i.title,
         updatedAt := if u.updatedAt.Some? then u.updatedAt.value else i.updatedAt)
    case CommandsKind => i.(commands := u.commands)
    case _ => i
  }

  predicate ToolsAfter(before: ReadModel.Tools, u: SessionUpdate, max: int, after: ReadModel.Tools) {
    match KindOf(u.kind)
    case CallKind => ReadModel.ToolStep(before, ReadModel.Call(u.tool), max, after)
    case CallUpdateKind => ReadModel.ToolStep(before, ReadModel.CallUpdate(u.tool), max, after)
    case _ => after == before
  }

  // ---------- the same by the kinds of the wire ----------

  predicate IsMessage(kind: string) {
    kind == "agent_message_chunk" || kind == "agent_message" || kind == "message"
  }

  lemma KindsOnTheWire(kind: string)
    ensures KindOf(kind).MessageKind? <==> IsMessage(kind)
    ensures KindOf(kind).ModeKind? <==> kind == "current_mode_update"
    ensures KindOf(kind).OptionsKind? <==> kind == "config_option_update"
    ensures KindOf(kind).InfoKind? <==> kind == "session_info_update"
    ensures KindOf(kind).CommandsKind? <==> kind == "available_commands_update"
    ensures KindOf(kind).CallKind? <==> kind == "tool_call"
    ensures KindOf(kind).CallUpdateKind? <==> kind == "tool_call_update"
  {
  }

  predicate FenceFollows(f: Config.Fence, u: SessionUpdate, g: Config.Fence) {
    && g.pending == f.pending
    && (u.kind == "config_option_update" ==>
          && g.options == Config.ProjectAll(u.configOptions) && (g.current <==> g.pending == 0)
          && g.version == f.version + 1 && g.mode == f.mode && g.rawConfig == Config.RawConfigOf(g.mode, g.options))
    && (u.kind == "current_mode_update" && u.mode != "" ==>
          && g.mode == u.mode && !g.current && g.version == f.version + 1 && g.options == f.options
          && g.rawConfig == f.rawConfig["mode" := Some(Config.Text(u.mode))])
    && (u.kind != "config_option_update" && (u.kind != "current_mode_update" || u.mode == "") ==> g == f)
  }

  predicate InfoFollows(i: Info, u: SessionUpdate, j: Info) {
    && (u.kind == "session_info_update" && u.tool.title.Some? ==> j.title == u.tool.title.value)
    && (u.kind == "session_info_update" && u.updatedAt.Some? ==> j.updatedAt == u.updatedAt.value)
    && (u.kind == "available_commands_update" ==> j.commands == u.commands)
    && (u.kind != "session_info_update" || u.tool.title.None? ==> j.title == i.title)
    && (u.kind != "session_info_update" || u.updatedAt.None? ==> j.updatedAt == i.updatedAt)
    && (u.kind != "available_commands_update" ==> j.commands == i.commands)
  }

  ghost predicate ToolsFollow(before: ReadModel.Tools, u: SessionUpdate, max: int, after: ReadModel.Tools) {
    && (u.kind == "tool_call" ==> ReadModel.Updates(before, ReadModel.Call(u.tool), after))
    && (u.kind == "tool_call_update" ==> ReadModel.Updates(before, ReadModel.CallUpdate(u.tool), after))
    && (u.kind == "tool_call" || u.kind == "tool_call_update" ==>
          (u.tool.id != "" && ReadModel.Fits(before, u.tool.id, max) ==> after.calls.Keys == before.calls.Keys + {u.tool.id}))
    && (u.kind != "tool_call" && u.kind != "tool_call_update" ==> after == before)
  }

  lemma FenceOnTheWire(f: Config.Fence, u: SessionUpdate)
    ensures FenceFollows(f, u, FenceAfter(f, u))
  {
    hide KindOf, Config.ProjectAll, Config.RawConfigOf;
    KindsOnTheWire(u.kind);
  }

  lemma InfoOnTheWire(i: Info, u: SessionUpdate)
    ensures InfoFollows(i, u, InfoAfter(i, u))
  {
    hide KindOf;
    KindsOnTheWire(u.kind);
  }

  lemma ToolsOnTheWire(before: ReadModel.Tools, u: SessionUpdate, max: int, after: ReadModel.Tools)
    requires ReadModel.Agree(before) && ToolsAfter(before, u, max, after)
    ensures ToolsFollow(before, u, max, after)
  {
    hide KindOf, ReadModel.ToolStep, ReadModel.Updates, ReadModel.Agree, ReadModel.Fits;
    KindsOnTheWire(u.kind);
    if u.kind == "tool_call" || u.kind == "tool_call_update" {
      var e := if u.kind == "tool_call" then ReadModel.Call(u.tool) else ReadModel.CallUpdate(u.tool);
      ReadModel.StepUpdates(before, e, max, after);
      if u.tool.id != "" && ReadModel.Fits(before, u.tool.id, max) {
        ReadModel.StepLists(before, e, max, after);
      }
    }
  }

  /** The text of an update is its text field, or else that of its first text block. */
  lemma {:induction false} FirstTextIsFirst(blocks: seq<ReadModel.Block>)
    ensures (forall i | 0 <= i < |blocks| :: !blocks[i].TextBlock?) ==> FirstText(blocks) == ""
    ensures forall i | 0 <= i < |blocks| && blocks[i].TextBlock? && (forall j | 0 <= j < i :: !blocks[j].TextBlock?) ::
      FirstText(blocks) == blocks[i].text
  {
    if blocks != [] {
      FirstTextIsFirst(blocks[1..]);
      forall i | 0 < i < |blocks| && blocks[i].TextBlock? && (forall j | 0 <= j < i :: !blocks[j].TextBlock?)
        ensures FirstText(blocks) == blocks[i].text
      {
        assert blocks[1..][i - 1] == blocks[i] && !blocks[0].TextBlock?;
        assert forall j | 0 <= j < i - 1 :: blocks[1..][j] == blocks[j + 1];
      }
    }
  }

  lemma TextOfUpdate(u: SessionUpdate)
    ensures u.text != "" ==> UpdateText(u) == u.text
    ensures u.text == "" && u.tool.content.Some? ==>
      forall i | 0 <= i < |u.tool.content.value| && u.tool.content.value[i].TextBlock?
        && (forall j | 0 <= j < i :: !u.tool.content.value[j].TextBlock?) ::
        UpdateText(u) == u.tool.content.value[i].text
    ensures u.text == "" && (u.tool.content.None? || forall b | b in u.tool.content.value :: !b.TextBlock?) ==> UpdateText(u) == ""
  {
    if u.tool.content.Some? { FirstTextIsFirst(u.tool.content.value); }
  }

  /** An alias that can be tried as a mode: a string that is not blank. */
  function ModeOf(alias: Option<Config.Setting>): Option<string> {
    if alias.Some? && alias.value.Text? && Strings.TrimSpace(alias.value.text) != "" then Some(alias.value.text) else None
  }

  function FirstMode(aliases: seq<Option<Config.Setting>>): Option<string> {
    if aliases == [] then None
    else
      var earlier := FirstMode(aliases[..|aliases| - 1]);
      if earlier.Some? then earlier else ModeOf(aliases[|aliases| - 1])
  }

  /** No RPC is needed: the first mode to try is the cached one. */
  predicate ModeIsCached(f: Config.Fence, aliases: seq<Option<Config.Setting>>) {
    FirstMode(aliases).Some? && Config.InitialModeEqual(f, FirstMode(aliases).value, false)
  }

  /** A string with something in it besides white space. */
  predicate IsUsable(alias: Option<Config.Setting>, modeID: string) {
    alias == Some(Config.Text(modeID)) && !Strings.AllSpace(modeID)
  }

  /** The first alias that can be tried at all is `modeID`. */
  ghost predicate IsFirstUsable(aliases: seq<Option<Config.Setting>>, modeID: string) {
    exists i :: IsFirstUsableAt(aliases, modeID, i)
  }

  ghost predicate IsFirstUsableAt(aliases: seq<Option<Config.Setting>>, modeID: string, i: int) {
    0 <= i < |aliases| && IsUsable(aliases[i], modeID) && forall j, other | 0 <= j < i :: !IsUsable(aliases[j], other)
  }

  lemma ModeIsUsable(alias: Option<Config.Setting>, modeID: string)
    ensures ModeOf(alias) == Some(modeID) <==> IsUsable(alias, modeID)
  {
    hide Strings.TrimSpace, Strings.AllSpace;
    Strings.BlankIsAllSpace(modeID);
  }

  lemma {:induction false} FirstModeIndex(aliases: seq<Option<Config.Setting>>) returns (i: nat)
    ensures i <= |aliases| && forall j | 0 <= j < i :: ModeOf(aliases[j]).None?
    ensures FirstMode(aliases) == if i < |aliases| then ModeOf(aliases[i]) else None
    ensures i < |aliases| ==> ModeOf(aliases[i]).Some?
    decreases |aliases|
  {
    hide ModeOf;
    i := 0;
    if aliases != [] {
      var n := |aliases| - 1;
      assert forall j | 0 <= j < n :: aliases[..n][j] == aliases[j];
      i := FirstModeIndex(aliases[..n]);
      if i == n && ModeOf(aliases[n]).None? { i := n + 1; }
    }
  }

  lemma FirstModeIsUsable(aliases: seq<Option<Config.Setting>>, modeID: string)
    ensures FirstMode(aliases) == Some(modeID) <==> IsFirstUsable(aliases, modeID)
  {
    hide ModeOf, IsUsable, FirstMode;
    var i := FirstModeIndex(aliases);
    forall j, other | 0 <= j < |aliases| ensures ModeOf(aliases[j]) == Some(other) <==> IsUsable(aliases[j], other) {
      ModeIsUsable(aliases[j], other);
    }
    if i < |aliases| { assert IsUsable(aliases[i], ModeOf(aliases[i]).value); }
    if k :| IsFirstUsableAt(aliases, modeID, k) {
      assert ModeOf(aliases[k]) == Some(modeID);
    }
    if FirstMode(aliases) == Some(modeID) {
      assert i < |aliases| && IsUsable(aliases[i], modeID);
      forall j, other | 0 <= j < i ensures !IsUsable(aliases[j], other) { ModeIsUsable(aliases[j], other); }
      assert IsFirstUsableAt(aliases, modeID, i);
    }
  }

  predicate RefusedUpTo(aliases: seq<Option<Config.Setting>>, answers: seq<Config.Answer>, n: nat)
    requires n <= |aliases| == |answers|
  {
    forall j | 0 <= j < n :: ModeOf(aliases[j]).Some? ==> answers[j].Refused?
  }

  lemma {:induction false} FirstModeIsKept(aliases: seq<Option<Config.Setting>>, n: nat)
    requires n <= |aliases| && FirstMode(aliases[..n]).Some?
    ensures FirstMode(aliases) == FirstMode(aliases[..n])
  {
    hide ModeOf;
    if n < |aliases| {
      assert aliases[..|aliases| - 1][..n] == aliases[..n];
      FirstModeIsKept(aliases[..|aliases| - 1], n);
    } else {
      assert aliases[..n] == aliases;
    }
  }

  lemma FirstModeGrows(aliases: seq<Option<Config.Setting>>, i: nat)
    requires i < |aliases|
    ensures FirstMode(aliases[..i + 1])
         == if FirstMode(aliases[..i]).Some? then FirstMode(aliases[..i]) else ModeOf(aliases[i])
    ensures FirstMode(aliases[..i + 1]).Some? ==> FirstMode(aliases) == FirstMode(aliases[..i + 1])
  {
    hide ModeOf;
    assert aliases[..i + 1][..i] == aliases[..i];
    if FirstMode(aliases[..i + 1]).Some? { FirstModeIsKept(aliases, i + 1); }
  }

  /** What a finished turn adds to the thread. */
  function Reply(turnID: string, result: Result): seq<ThreadEntry> {
    if result.Completed? then [ThreadEntry(turnID + "-assistant", AssistantMessage, result.text)] else []
  }

  // ---------- the lifecycle's steps, field by field ----------

  lemma StartEffect(s: State, prompt: string)
    requires Inv(s)
    ensures Inv(Next(s, StartTurn(prompt)))
    ensures Next(s, StartTurn(prompt)) ==
      if s.status.Closed? || s.current.Some? then s
      else
        var t := NewTurn(s.turnSeq + 1, prompt);
        s.(turnSeq := s.turnSeq + 1, current := Some(|s.turns|), status := Running, turns := s.turns + [t],
           thread := s.thread + [UserEntry(t)])
    ensures s.current.Some? ==> s.current.value < |s.turns|
  {
    hide Inv, UserEntry, TurnId, TurnNext, HistoryOf;
    StepKeepsInv(s, StartTurn(prompt));
    TurnsAreOk(s);
  }

  /** `after` is what the lifecycle's step makes of `before`. */
  predicate Stepped(before: State, a: Action, after: State) {
    Enabled(before, a) && after == Next(before, a)
  }

  predicate Simple(a: Action) {
    !a.StartTurn? && !a.BeginClose? && !a.Detach? && !a.Permission?
  }

  lemma SimpleEffect(s: State, a: Action, k: nat)
    requires Inv(s) && Enabled(s, a) && Simple(a) && Target(s, a) == Some(k)
    ensures k < |s.turns| && Inv(Next(s, a))
    ensures Next(s, a) == s.(turns := s.turns[k := TurnNext(s.turns[k], a)],
                             closing := if a.CloseFinishes? then None else s.closing)
  {
    hide Inv, TurnNext, TurnId;
    StepKeepsInv(s, a);
    TargetMayStep(s, a);
  }

  lemma DetachEffect(s: State, k: nat)
    requires Inv(s) && Enabled(s, Detach(k))
    ensures Inv(Next(s, Detach(k))) && s.current == Some(k) && k < |s.turns| && s.turns[k].winner.Some?
    ensures TurnNext(s.turns[k], Detach(k)) == s.turns[k].(phase := Phase.Detached, cancelTimer := false)
    ensures Next(s, Detach(k)) == s.(
      current := None, status := if s.status.Closed? then Closed else Ready,
      turns := s.turns[k := TurnNext(s.turns[k], Detach(k))], thread := s.thread + Answers(s.turns[k]))
  {
    hide HistoryOf, TurnId, Answers, Numbered, ClosingOk;
    StepKeepsInv(s, Detach(k));
    assert TurnOk(s.turns[k]);
    assert Unfinished(s.turns[k]);
  }

  lemma CloseEffect(s: State)
    requires Inv(s)
    ensures Inv(Next(s, BeginClose))
    ensures Next(s, BeginClose) == if s.status.Closed? then s else s.(status := Closed, closing := s.current)
    ensures s.current.Some? ==> s.current.value < |s.turns|
  {
    hide Inv;
    StepKeepsInv(s, BeginClose);
    TurnsAreOk(s);
  }

  lemma IdleStep(s: State, a: Action)
    requires Inv(s) && (a.Message? || a.CancelTurn?) && Target(s, a).None?
    ensures Next(s, a) == s
  {
    hide Inv;
  }

  lemma CurrentIsListed(s: State)
    requires Inv(s)
    ensures s.current.Some? ==> s.current.value < |s.turns|
  {
  }

  lemma ClaimEffect(s: State, a: Action, k: nat) returns (t: State)
    requires Inv(s) && Enabled(s, a) && OfferedBy(a, k).Some?
    ensures Stepped(s, a, t) && Inv(t) && k < |s.turns|
    ensures t == s.(turns := t.turns, closing := t.closing) && |t.turns| == |s.turns|
    ensures t.turns == s.turns[k := t.turns[k]]
    ensures var u, v := s.turns[k], t.turns[k];
      && v.number == u.number && v.text == u.text && v.cancelTimer == u.cancelTimer && v.completion == u.completion
      && !v.phase.Open? && (u.phase.Open? ==> v.phase.Claimed? && v.winner == OfferedBy(a, k))
  {
    hide Inv, TurnId;
    SimpleEffect(s, a, k);
    t := Next(s, a);
  }

  lemma SendEffect(s: State, k: nat, result: Result) returns (t: State)
    requires Inv(s) && k < |s.turns| && s.turns[k].phase.Detached? && s.turns[k].winner == Some(result)
    ensures Stepped(s, Send(k), t) && Inv(t) && s.turns[k].completion == Completion([], [], 0)
    ensures t == s.(turns := s.turns[k := s.turns[k].(phase := Sent, completion := Completion([result], [], 0))])
  {
    hide HistoryOf, TurnId, Numbered, SingleFlight, ClosingOk;
    assert TurnOk(s.turns[k]);
    SimpleEffect(s, Send(k), k);
    assert [] + [result] == [result];
    t := Next(s, Send(k));
  }

  lemma CloseChannelEffect(s: State, k: nat) returns (t: State)
    requires Inv(s) && k < |s.turns| && s.turns[k].phase.Sent?
    ensures Stepped(s, CloseChannel(k), t) && Inv(t) && s.turns[k].completion.closes == 0
    ensures t == s.(
      turns := s.turns[k := s.turns[k].(phase := Finished, completion := s.turns[k].completion.(closes := 1))])
  {
    hide HistoryOf, TurnId, Numbered, SingleFlight, ClosingOk;
    assert TurnOk(s.turns[k]);
    SimpleEffect(s, CloseChannel(k), k);
    t := Next(s, CloseChannel(k));
  }

  lemma PrunedToNothing(m: ReadModel.Tools, max: int)
    requires max < 0 || |m.calls| <= max
    ensures ReadModel.PrunedTo(m, max, m) && ReadModel.Within(m, m)
  {
  }

  lemma WithinIsTransitive(before: ReadModel.Tools, between: ReadModel.Tools, after: ReadModel.Tools)
    requires before.calls.Keys == before.operations.Keys
    requires ReadModel.Within(between, before) && ReadModel.Within(after, between)
    ensures ReadModel.Within(after, before)
  {
    assert between.calls.Keys == between.operations.Keys;
    assert after.operations.Keys == after.calls.Keys;
    assert before.operations.Keys - (before.calls.Keys - after.calls.Keys) == after.calls.Keys;
    forall k | k in after.calls ensures after.calls[k] == before.calls[k] { assert k in between.calls; }
    forall k | k in after.operations ensures after.operations[k] == before.operations[k] { assert k in between.operations; }
  }

  lemma FinishedGoFirst(before: ReadModel.Tools, between: ReadModel.Tools, after: ReadModel.Tools)
    requires after.calls.Keys <= between.calls.Keys
    requires forall k | k in after.calls :: after.calls[k] == between.calls[k]
    requires forall k | k in before.calls && k !in between.calls :: ReadModel.Finished(before.calls[k])
    requires after == between || forall k | k in between.calls :: !ReadModel.Finished(between.calls[k])
    ensures ReadModel.FinishedFirst(before, after)
  {
    hide ReadModel.Finished;
  }

  /** Dropping finished calls down to the cap, and others only when no finished one is left, is pruning. */
  lemma PrunedInTwo(before: ReadModel.Tools, between: ReadModel.Tools, after: ReadModel.Tools, max: nat)
    requires before.calls.Keys == before.operations.Keys && |before.calls| > max && |after.calls| == max
    requires ReadModel.Within(between, before) && ReadModel.Within(after, between)
    requires forall k | k in before.calls && k !in between.calls :: ReadModel.Finished(before.calls[k])
    requires after == between || forall k | k in between.calls :: !ReadModel.Finished(between.calls[k])
    ensures ReadModel.PrunedTo(before, max, after)
  {
    hide ReadModel.Finished, ReadModel.FinishedFirst;
    FinishedGoFirst(before, between, after);
    hide ReadModel.Within;
    WithinIsTransitive(before, between, after);
  }

  // ---------- a turn ----------

  class ActiveTurn {
    const id: string
    var outputText: string
    var claimed: bool                 // finishOnce has run
    var cancelTimer: bool
    var completion: seq<Result>       // the buffered channel, of capacity one
    var completionClosed: bool

    ghost predicate Shows(t: Turn)
      reads this
    {
      && id == TurnId(t.number) && outputText == t.text && claimed == !t.phase.Open? && cancelTimer == t.cancelTimer
      && completion == t.completion.queue && completionClosed == (t.completion.closes > 0)
    }

    constructor (number: nat, ghost prompt: string)
      ensures Shows(NewTurn(number, prompt))
    {
      id := TurnId(number);
      outputText, claimed, cancelTimer, completion, completionClosed := "", false, false, [], false;
    }

    /** A send on the buffered channel that gives up when the buffer is full. */
    method TrySend(r: Result)
      requires !completionClosed
      modifies `completion
      ensures completion == if |old(completion)| < 1 then old(completion) + [r] else old(completion)
    {
      if |completion| < 1 {
        completion := completion + [r];
      }
    }

    method CloseCompletion()
      requires !completionClosed
      modifies `completionClosed
      ensures completionClosed
    {
      completionClosed := true;
    }
  }

  class Driver {
    const sessionID: string
    const maxThread: int
    const maxToolCalls: int

    var status: Status
    var currentTurn: ActiveTurn?
    var turnSeq: nat
    var thread: array<ThreadEntry>
    var threadLen: nat
    var toolCalls: map<string, ReadModel.ToolCall>
    var operations: map<string, ReadModel.Operation>
    var orphanGen: nat
    var orphanID: string
    var orphanMessage: string
    var mode: string
    var options: seq<Config.RuntimeOption>
    var rawConfig: Config.RawConfig
    var configOptionsCurrent: bool
    var configChangeVersion: nat
    var configChangesPending: nat
    var title: string
    var updatedAt: string
    var availableCommands: seq<string>

    // The lifecycle that the fields stand for, and every turn ever started.
    ghost var life: State
    ghost var turns: seq<ActiveTurn>

    ghost predicate LifeShown()
      reads `status, `currentTurn, `turnSeq, `life, `turns, turns
    {
      && Inv(life) && status == life.status && turnSeq == life.turnSeq
      && |turns| == |life.turns|
      && (forall k | 0 <= k < |turns| :: turns[k].Shows(life.turns[k]))
      && (forall i, j | 0 <= i < j < |turns| :: turns[i] != turns[j])
      && (life.current.Some? ==> life.current.value < |turns|)
      && currentTurn == (if life.current.Some? then turns[life.current.value] else null)
    }

    ghost predicate ThreadShows(history: seq<ThreadEntry>)
      reads `thread, `threadLen, thread
    {
      && threadLen <= thread.Length
      && thread[..threadLen] == ReadModel.Window(Cap(), history)
    }

    ghost predicate Valid()
      reads `status, `currentTurn, `turnSeq, `life, `turns, turns, `thread, `threadLen, thread, `toolCalls, `operations
    {
      LifeShown() && ThreadShows(life.thread) && ReadModel.Agree(ToolsOf()) && ReadModel.WithinCap(ToolsOf(), maxToolCalls)
    }

    ghost predicate IsTurn(turn: ActiveTurn, k: nat)
      reads `turns
    {
      k < |turns| && turns[k] == turn
    }

    /** Turn `k` is in this phase, and if a result is given, that is its winner. */
    ghost predicate HasResult(k: nat, phase: Phase, result: Option<Result>)
      reads `life
    {
      k < |life.turns| && life.turns[k].phase == phase && (result.Some? ==> life.turns[k].winner == result)
    }

    lemma LifeIsShown()
      requires LifeShown()
      ensures Inv(life) && status == life.status && turnSeq == life.turnSeq && |turns| == |life.turns|
      ensures currentTurn == null <==> life.current.None?
      ensures life.current.Some? ==> life.current.value < |turns| && currentTurn == turns[life.current.value]
    {
      hide Inv, TurnId;
    }

    function Cap(): int {
      ReadModel.Limit(maxThread, ReadModel.DEFAULT_THREAD_ENTRIES)
    }

    function FenceOf(): Config.Fence
      reads `mode, `options, `rawConfig, `configOptionsCurrent, `configChangeVersion, `configChangesPending
    {
      Config.Fence(mode, options, rawConfig, configChangeVersion, configChangesPending, configOptionsCurrent)
    }

    function InfoOf(): Info
      reads `title, `updatedAt, `availableCommands
    {
      Info(title, updatedAt, availableCommands)
    }

    function OrphanOf(): Orphans.Orphan
      reads `orphanGen, `orphanID, `orphanMessage
    {
      Orphans.Orphan(orphanGen, orphanID, orphanMessage)
    }

    function ToolsOf(): ReadModel.Tools
      reads `toolCalls, `operations
    {
      ReadModel.Tools(toolCalls, operations)
    }

    constructor (
        sessionID: string, mode: string, snapshot: Option<seq<Config.ConfigOption>>, commands: seq<string>, maxThread: int,
        maxToolCalls: int)
      ensures Valid() && life == START && OrphanOf() == Orphans.NO_ORPHAN && ToolsOf() == ReadModel.NO_TOOLS
      ensures FenceOf() == Config.Boot(mode, snapshot) && InfoOf() == Info("", "", commands)
      ensures this.mode == mode && (configOptionsCurrent <==> snapshot.Some?) && configChangeVersion == configChangesPending == 0
      ensures options == (if snapshot.Some? then Config.ProjectAll(snapshot.value) else [])
      ensures rawConfig == Config.RawConfigOf(mode, options)
      ensures this.sessionID == sessionID && this.maxThread == maxThread && this.maxToolCalls == maxToolCalls
      ensures fresh(thread)
    {
      this.sessionID, this.maxThread, this.maxToolCalls := sessionID, maxThread, maxToolCalls;
      status, currentTurn, turnSeq := Ready, null, 0;
      thread, threadLen := new ThreadEntry[0], 0;
      toolCalls, operations := map[], map[];
      orphanGen, orphanID, orphanMessage := 0, "", "";
      var boot := Config.Boot(mode, snapshot);
      this.mode, options, rawConfig := boot.mode, boot.options, boot.rawConfig;
      configOptionsCurrent, configChangeVersion, configChangesPending := snapshot.Some?, 0, 0;
      title, updatedAt, availableCommands := "", "", commands;
      life, turns := START, [];
      new;
      StartIsInv();
    }

    // ---------- the thread ----------

    /** append and pruneThreadLocked */
    method AppendThread(e: ThreadEntry)
      requires threadLen <= thread.Length
      modifies `thread, `threadLen, thread
      ensures threadLen <= thread.Length && (thread == old(thread) || fresh(thread))
      ensures thread[..threadLen] == ReadModel.Window(Cap(), old(thread[..threadLen]) + [e])
    {
      if threadLen == thread.Length {
        var grown := new ThreadEntry[2 * threadLen + 1];
        for i := 0 to threadLen
          invariant threadLen == old(threadLen) && thread == old(thread) && thread[..] == old(thread[..])
          invariant forall j | 0 <= j < i :: grown[j] == thread[j]
        {
          grown[i] := thread[i];
        }
        assert grown[..threadLen] == thread[..threadLen];
        thread := grown;
      }
      thread[threadLen] := e;
      assert thread[..threadLen + 1] == old(thread[..threadLen]) + [e];
      threadLen := ReadModel.PruneThread(thread, threadLen + 1, maxThread);
    }

    // ---------- the turn lifecycle ----------

    /** The critical section of StartTurn: no turn on a closed driver, and none beside another. */
    method StartTurn(prompt: string) returns (turn: ActiveTurn?, terminal: Option<Orphans.Notification>)
      requires Valid()
      modifies `status, `currentTurn, `turnSeq, `thread, `threadLen, `orphanID, `orphanMessage, `life, `turns, thread
      ensures Valid() && Stepped(old(life), Action.StartTurn(prompt), life)
      ensures turn == null <==> old(status).Closed? || old(currentTurn) != null
      ensures turn == null ==> terminal == None && OrphanOf() == old(OrphanOf()) && turns == old(turns)
      ensures turn != null ==> fresh(turn) && currentTurn == turn && turns == old(turns) + [turn]
      ensures turn != null ==> (OrphanOf(), terminal) == Orphans.TakeTerminal(sessionID, old(OrphanOf()))
      ensures turn != null ==> turn.id == "turn-" + Decimal.ToDecimal(old(turnSeq) + 1) && turnSeq == old(turnSeq) + 1
      ensures turn != null ==> life.thread == old(life).thread + [ThreadEntry(turn.id + "-user", UserMessage, prompt)]
      ensures thread == old(thread) || fresh(thread)
    {
      hide Inv, Next, TurnId, UserEntry, Driver.LifeShown, Orphans.TakeTerminal, ReadModel.Window;
      LifeIsShown();
      StartEffect(life, prompt);
      turn, terminal := null, None;
      if status.Closed? || currentTurn != null {
        return;
      }
      ghost var before := life.thread;
      turn := ListTurn(prompt);
      terminal := TakeOrphanTerminal();
      var entry := ThreadEntry(turn.id + "-user", UserMessage, prompt);
      ReadModel.WindowSlides(Cap(), before, [entry]);
      AppendThread(entry);
    }

    /** The new turn becomes the current one. */
    method ListTurn(prompt: string) returns (turn: ActiveTurn)
      requires LifeShown() && !status.Closed? && currentTurn == null
      modifies `status, `currentTurn, `turnSeq, `life, `turns
      ensures LifeShown() && Stepped(old(life), Action.StartTurn(prompt), life)
      ensures fresh(turn) && currentTurn == turn && turns == old(turns) + [turn]
      ensures turn.id == "turn-" + Decimal.ToDecimal(old(turnSeq) + 1) && turnSeq == old(turnSeq) + 1
      ensures life.thread == old(life).thread + [ThreadEntry(turn.id + "-user", UserMessage, prompt)]
    {
      hide Inv, Next;
      StartEffect(life, prompt);
      turnSeq := turnSeq + 1;
      turn := new ActiveTurn(turnSeq, prompt);
      currentTurn, status := turn, Running;
      life, turns := Next(life, Action.StartTurn(prompt)), turns + [turn];
    }

    /** finishOnce.Do: whether this call is the first; `a` is the caller's step. */
    method Claim(turn: ActiveTurn, ghost k: nat, ghost a: Action) returns (won: bool)
      requires Valid() && IsTurn(turn, k) && Enabled(life, a) && OfferedBy(a, k).Some?
      modifies `life, turn`claimed
      ensures Valid() && Stepped(old(life), a, life) && turn.claimed
      ensures won == !old(turn.claimed)
      ensures IsTurn(turn, k) && (won ==> HasResult(k, Claimed, OfferedBy(a, k))) && life.thread == old(life).thread
    {
      hide Inv, Next, Enabled, Stepped, TurnId, Driver.ThreadShows, ReadModel.Agree, ReadModel.WithinCap;
      assert forall j | 0 <= j < |turns| && j != k :: turns[j] != turn;
      ghost var next := ClaimEffect(life, a, k);
      won := !turn.claimed;
      turn.claimed := true;
      life := next;
    }

    /** The lock section of finishTurn, run by the one caller that won the claim. */
    method DetachTurn(turn: ActiveTurn, ghost k: nat, result: Result)
      requires Valid() && IsTurn(turn, k) && HasResult(k, Claimed, Some(result))
      modifies `status, `currentTurn, `thread, `threadLen, `life, thread, turn`cancelTimer
      ensures Valid() && Stepped(old(life), Detach(k), life)
      ensures currentTurn == null && (thread == old(thread) || fresh(thread)) && HasResult(k, Phase.Detached, Some(result))
      ensures status == if old(status).Closed? then Closed else Ready
      ensures life.thread == old(life).thread + Reply(turn.id, result)
    {
      hide Inv, Next, TurnId, Driver.LifeShown, ReadModel.Window;
      ghost var before := life.thread;
      UnlistTurn(turn, k, result);
      if result.Completed? {
        var entry := ThreadEntry(turn.id + "-assistant", AssistantMessage, result.text);
        ReadModel.WindowSlides(Cap(), before, [entry]);
        AppendThread(entry);
      } else {
        assert life.thread == before;
      }
    }

    /** The turn stops being the current one, and its timer is stopped. */
    method UnlistTurn(turn: ActiveTurn, ghost k: nat, result: Result)
      requires LifeShown() && IsTurn(turn, k) && HasResult(k, Claimed, Some(result))
      modifies `status, `currentTurn, `life, turn`cancelTimer
      ensures LifeShown() && Stepped(old(life), Detach(k), life) && currentTurn == null
      ensures HasResult(k, Phase.Detached, Some(result)) && status == if old(status).Closed? then Closed else Ready
      ensures life.thread == old(life).thread + Reply(turn.id, result)
    {
      hide Inv, Next, TurnId, TurnNext;
      DetachEffect(life, k);
      turn.cancelTimer := false;
      if currentTurn == turn {
        currentTurn := null;
        if !status.Closed? {
          status := Ready;
        }
      }
      life := Next(life, Detach(k));
    }

    /** The send of the result; the channel is open and empty when the winner gets here. */
    method SendResult(turn: ActiveTurn, ghost k: nat, result: Result)
      requires Valid() && IsTurn(turn, k) && HasResult(k, Phase.Detached, Some(result))
      modifies `life, turn`completion
      ensures Valid() && Stepped(old(life), Send(k), life) && turn.completion == [result]
      ensures HasResult(k, Sent, None) && life.thread == old(life).thread
    {
      hide Inv, Next, Enabled, Stepped, TurnId, Driver.ThreadShows, ReadModel.Agree, ReadModel.WithinCap;
      assert forall j | 0 <= j < |turns| && j != k :: turns[j] != turn;
      ghost var next := SendEffect(life, k, result);
      turn.TrySend(result);
      life := next;
    }

    method CloseTurn(turn: ActiveTurn, ghost k: nat)
      requires Valid() && IsTurn(turn, k) && HasResult(k, Sent, None)
      modifies `life, turn`completionClosed
      ensures Valid() && Stepped(old(life), CloseChannel(k), life) && turn.completionClosed
      ensures life.thread == old(life).thread
    {
      hide Inv, Next, Enabled, Stepped, TurnId, Driver.ThreadShows, ReadModel.Agree, ReadModel.WithinCap;
      assert forall j | 0 <= j < |turns| && j != k :: turns[j] != turn;
      ghost var next := CloseChannelEffect(life, k);
      turn.CloseCompletion();
      life := next;
    }

    /**
     finishTurn, run without interference between its parts: the first caller delivers its result, clears the
     current turn and closes the channel; a later caller changes nothing.
     */
    method FinishTurn(turn: ActiveTurn, ghost k: nat, ghost a: Action, result: Result) returns (won: bool)
      requires Valid() && IsTurn(turn, k) && Enabled(life, a) && OfferedBy(a, k) == Some(result)
      modifies `status, `currentTurn, `thread, `threadLen, `life, thread, turn
      ensures Valid() && won == !old(turn.claimed) && turn.claimed
      ensures !won ==> status == old(status) && currentTurn == old(currentTurn) && turn.completion == old(turn.completion)
      ensures !won ==> life.thread == old(life).thread && turn.completionClosed == old(turn.completionClosed)
      ensures won ==> currentTurn == null && status == if old(status).Closed? then Closed else Ready
      ensures won ==> turn.completion == [result] && turn.completionClosed
      ensures won ==> life.thread == old(life).thread + Reply(turn.id, result)
    {
      hide Inv, Next, Enabled, Stepped, TurnId, Driver.LifeShown, Driver.ThreadShows, ReadModel.Agree, ReadModel.WithinCap;
      won := Claim(turn, k, a);
      if won {
        DetachTurn(turn, k, result);
        SendResult(turn, k, result);
        CloseTurn(turn, k);
      }
    }

    /** CancelTurn's critical section: the timer is armed once, however often the turn is cancelled. */
    method ArmCancelTimer(turnID: string) returns (found: bool)
      requires Valid()
      modifies `life, if currentTurn == null then {} else {currentTurn}
      ensures Valid() && Stepped(old(life), CancelTurn(turnID), life) && turns == old(turns)
      ensures found <==> currentTurn != null && currentTurn.id == turnID
      ensures found ==> currentTurn.cancelTimer
    {
      hide Driver.ThreadShows, ReadModel.Agree, ReadModel.WithinCap, Orphans.TakeTerminal, Inv, Next, TurnId;
      CurrentIsListed(life);
      found := false;
      if currentTurn == null || currentTurn.id != turnID {
        IdleStep(life, CancelTurn(turnID));
        return;
      }
      SimpleEffect(life, CancelTurn(turnID), life.current.value);
      if !currentTurn.cancelTimer {
        currentTurn.cancelTimer := true;
      }
      life := Next(life, CancelTurn(turnID));
      found := true;
    }

    /** beginClose: only the first call gets the turn in flight and the open generation. */
    method BeginCloseDriver() returns (active: ActiveTurn?, terminal: Option<Orphans.Notification>)
      requires Valid()
      modifies `status, `life, `orphanID, `orphanMessage
      ensures Valid() && Stepped(old(life), BeginClose, life) && status.Closed?
      ensures old(status).Closed? ==> active == null && terminal == None && OrphanOf() == old(OrphanOf())
      ensures !old(status).Closed? ==>
        active == currentTurn && (OrphanOf(), terminal) == Orphans.TakeTerminal(sessionID, old(OrphanOf()))
      ensures active != null ==> life.closing.Some? && IsTurn(active, life.closing.value)
    {
      hide Driver.ThreadShows, ReadModel.Agree, ReadModel.WithinCap, Orphans.TakeTerminal, Inv, Next, TurnId;
      CloseEffect(life);
      if status.Closed? {
        return null, None;
      }
      status := Closed;
      life := Next(life, BeginClose);
      active := currentTurn;
      terminal := TakeOrphanTerminal();
    }

    // ---------- orphan updates ----------

    method TakeOrphanTerminal() returns (terminal: Option<Orphans.Notification>)
      modifies `orphanID, `orphanMessage
      ensures (OrphanOf(), terminal) == Orphans.TakeTerminal(sessionID, old(OrphanOf()))
    {
      if orphanID == "" {
        return None;
      }
      terminal := Some(Orphans.Notification(sessionID, Orphans.Update("", ""), orphanID, true));
      orphanID, orphanMessage := "", "";
    }

    method BindOrphanUpdate(n: Orphans.Notification) returns (previous: seq<Orphans.Notification>, bound: Orphans.Notification)
      modifies `orphanGen, `orphanID, `orphanMessage
      ensures Orphans.Binding(OrphanOf(), previous, bound) == Orphans.Bind(sessionID, old(OrphanOf()), n)
    {
      hide Strings.TrimSpace;
      previous, bound := [], n;
      var kind, msgID := Strings.TrimSpace(n.update.kind), Strings.TrimSpace(n.update.messageId);
      if Orphans.IsIdleKind(kind) {
        if orphanID == "" {
          return;
        }
        bound := n.(updateId := orphanID, terminal := true);
        orphanID, orphanMessage := "", "";
        return;
      }
      if !Orphans.IsBodyKind(kind) {
        bound := n.(updateId := orphanID);
        return;
      }
      if orphanID != "" && msgID != "" && orphanMessage != "" && msgID != orphanMessage {
        previous := previous + [Orphans.Notification(sessionID, Orphans.Update("", ""), orphanID, true)];
        orphanID, orphanMessage := "", "";
      }
      if orphanID == "" {
        orphanGen := orphanGen + 1;
        if msgID != "" {
          orphanID := msgID;
        } else {
          orphanID := Orphans.SdkId(sessionID, orphanGen);
        }
        orphanMessage := msgID;
      } else if orphanMessage == "" && msgID != "" {
        orphanMessage := msgID;
      }
      bound := n.(updateId := orphanID);
    }

    // ---------- config changes ----------

    method BeginConfigChange() returns (version: nat, exclusive: bool)
      modifies `configChangeVersion, `configChangesPending, `configOptionsCurrent
      ensures (FenceOf(), Config.Ticket(version, exclusive)) == Config.BeginChange(old(FenceOf()))
    {
      configChangeVersion := configChangeVersion + 1;
      configChangesPending := configChangesPending + 1;
      configOptionsCurrent := false;
      return configChangeVersion, configChangesPending == 1;
    }

    method EndConfigChange()
      requires configChangesPending > 0
      modifies `configChangesPending
      ensures FenceOf() == Config.EndChange(old(FenceOf()))
    {
      configChangesPending := configChangesPending - 1;
    }

    /** replaceConfigOptionsLocked */
    method ReplaceConfigOptions(snapshot: seq<Config.ConfigOption>)
      modifies `options, `rawConfig, `configOptionsCurrent
      ensures FenceOf() == Config.Replace(old(FenceOf()), snapshot)
      ensures |options| == |snapshot| && forall j | 0 <= j < |options| :: Config.Shows(snapshot[j], options[j])
      ensures mode == old(mode) && rawConfig == Config.RawConfigOf(mode, options)
      ensures configOptionsCurrent <==> configChangesPending == 0
    {
      var next: seq<Config.RuntimeOption> := [];
      for i := 0 to |snapshot|
        invariant |next| == i && forall j | 0 <= j < i :: next[j] == Config.Project(snapshot[j])
      {
        next := next + [Config.Project(snapshot[i])];
      }
      assert next == Config.ProjectAll(snapshot);
      options := next;
      rawConfig := Config.RawConfigOf(mode, options);
      configOptionsCurrent := configChangesPending == 0;
    }

    /** What SetAgentMode does with a successful response. */
    method InstallMode(modeID: string)
      modifies `mode, `rawConfig
      ensures FenceOf() == Config.AnswerMode(old(FenceOf()), modeID)
    {
      mode := modeID;
      rawConfig := rawConfig["mode" := Some(Config.Text(modeID))];
    }

    /** What SetAgentConfigOption does with a successful response. */
    method InstallOption(
        version: nat, exclusive: bool, id: string, value: Option<Config.Setting>, snapshot: Option<seq<Config.ConfigOption>>)
      modifies `options, `rawConfig, `configOptionsCurrent
      ensures FenceOf() == Config.AnswerOption(old(FenceOf()), Config.Ticket(version, exclusive), id, value, snapshot)
    {
      rawConfig := rawConfig[id := value];
      if snapshot.Some? {
        ReplaceConfigOptions(snapshot.value);
        configOptionsCurrent := exclusive && configChangesPending == 1 && version == configChangeVersion;
      } else {
        for i := 0 to |options|
          modifies `options
          invariant |options| == |old(options)|
          invariant forall j | 0 <= j < i ::
            options[j] == if old(options)[j].id == id then old(options)[j].(value := value) else old(options)[j]
          invariant forall j | i <= j < |options| :: options[j] == old(options)[j]
        {
          if options[i].id == id {
            options := options[i := options[i].(value := value)];
          }
        }
        assert options == Config.Patched(old(options), id, value);
      }
    }

    /** SetAgentMode when nothing else touches the config while its RPC is under way. */
    method SetAgentMode(modeID: string, answer: Config.Answer)
      modifies `mode, `rawConfig, `configOptionsCurrent, `configChangeVersion, `configChangesPending
      ensures configChangesPending == old(configChangesPending) && configChangeVersion == old(configChangeVersion) + 1
      ensures !configOptionsCurrent
      ensures mode == if answer.Refused? then old(mode) else modeID
      ensures rawConfig == if answer.Refused? then old(rawConfig) else old(rawConfig)["mode" := Some(Config.Text(modeID))]
    {
      var version, exclusive := BeginConfigChange();
      if !answer.Refused? {
        InstallMode(modeID);
      }
      EndConfigChange();
    }

    /** The config notifications that the read loop handles at some moment, in order. */
    method ReadNotes(notes: seq<Aliases.Note>)
      modifies `mode, `options, `rawConfig, `configOptionsCurrent, `configChangeVersion
      ensures FenceOf() == Aliases.AfterNotes(old(FenceOf()), notes)
    {
      hide Config.NotifyMode, Config.NotifyOptions;
      for i := 0 to |notes|
        invariant FenceOf() == Aliases.AfterNotes(old(FenceOf()), notes[..i])
      {
        assert notes[..i + 1][..i] == notes[..i];
        match notes[i] {
          case OfMode(modeID) => NoteMode(modeID);
          case OfOptions(snapshot) => NoteOptions(snapshot);
        }
      }
      assert notes[..|notes|] == notes;
    }

    /**
     SetAgentConfigOption amid the notifications of `t`: its snapshot is trusted exactly when no other setter was
     under way and nothing was read between its begin and its end. The last clauses are for nothing read at all.
     */
    method SetAgentConfigOption(id: string, t: Aliases.Try)
      modifies `mode, `options, `rawConfig, `configOptionsCurrent, `configChangeVersion, `configChangesPending
      ensures FenceOf() == Aliases.SetAmid(old(FenceOf()), id, t)
      ensures configChangesPending == old(configChangesPending)
      ensures configOptionsCurrent <==>
        t.answer.Snapshot? && old(configChangesPending) == 0
        && Aliases.AreQuiet(t.around.install) && Aliases.AreQuiet(t.around.end)
      ensures configOptionsCurrent ==> options == Config.ProjectAll(t.answer.options)
      ensures t.around == Aliases.NOTHING_READ ==>
        && configChangeVersion == old(configChangeVersion) + 1
        && (t.answer.Snapshot? ==> options == Config.ProjectAll(t.answer.options))
        && (t.answer.Refused? ==> options == old(options) && rawConfig == old(rawConfig))
        && (t.answer.Accepted? ==> rawConfig == old(rawConfig)[id := t.value] && |options| == |old(options)|)
        && (t.answer.Accepted? ==> forall j | 0 <= j < |options| ::
              options[j] == if old(options)[j].id == id then old(options)[j].(value := t.value) else old(options)[j])
    {
      hide Config.ProjectAll, Config.Patched, Config.RawConfigOf;
      Aliases.SetterLeavesTrust(FenceOf(), id, t);
      ReadNotes(t.around.begin);
      var version, exclusive := BeginConfigChange();
      ReadNotes(t.around.install);
      if !t.answer.Refused? {
        InstallOption(version, exclusive, id, t.value, if t.answer.Snapshot? then Some(t.answer.options) else None);
      }
      ReadNotes(t.around.end);
      EndConfigChange();
    }

    /** initialConfigOptionEqual: the first option with the id decides, and only a trusted snapshot counts. */
    method InitialConfigOptionEqual(id: string, value: Option<Config.Setting>) returns (equal: bool)
      ensures equal == Config.InitialOptionEqual(FenceOf(), id, value)
    {
      if !configOptionsCurrent || configChangesPending != 0 || value.None? {
        return false;
      }
      for i := 0 to |options|
        invariant Config.Find(options, id) == Config.Find(options[i..], id)
      {
        assert options[i..][1..] == options[i + 1..];
        if options[i].id == id {
          return options[i].value.Some? && options[i].value == value;
        }
      }
      equal := false;
    }

    /**
     The alias loop of applyInitialConfigOption amid notifications. Every alias before the applied one failed its
     test and was refused; the applied one either passed the test on the fence of that moment, and no RPC was
     sent for it, or was not refused. When nothing is read meanwhile, only the very first alias can pass.
     */
    method ApplyInitialConfigOption(id: string, tries: seq<Aliases.Try>) returns (applied: Option<nat>, rpcs: nat)
      modifies `mode, `options, `rawConfig, `configOptionsCurrent, `configChangeVersion, `configChangesPending
      ensures configChangesPending == old(configChangesPending)
      ensures applied.None? ==>
        rpcs == |tries| && Aliases.AllRefused(old(FenceOf()), id, tries, |tries|)
        && FenceOf() == Aliases.AfterTries(old(FenceOf()), id, tries, |tries|)
      ensures applied.Some? ==> applied.value < |tries| && Aliases.AllRefused(old(FenceOf()), id, tries, applied.value)
      ensures applied.Some? && Aliases.Passes(old(FenceOf()), id, tries, applied.value) ==>
        rpcs == applied.value && FenceOf() == Aliases.AtTest(old(FenceOf()), id, tries, applied.value)
      ensures applied.Some? && !Aliases.Passes(old(FenceOf()), id, tries, applied.value) ==>
        rpcs == applied.value + 1 && !tries[applied.value].answer.Refused?
        && FenceOf() == Aliases.AfterTries(old(FenceOf()), id, tries, rpcs)
      ensures Aliases.NothingRead(tries) ==>
        && configChangeVersion == old(configChangeVersion) + rpcs
        && (applied.Some? && rpcs == applied.value ==> applied.value == 0 && FenceOf() == old(FenceOf()))
    {
      hide Config.Find, Config.ProjectAll, Config.Patched, Aliases.SetAmid;
      rpcs := 0;
      for i := 0 to |tries|
        invariant rpcs == i && Aliases.AllRefused(old(FenceOf()), id, tries, i)
        invariant configChangesPending == old(configChangesPending)
        invariant FenceOf() == Aliases.AfterTries(old(FenceOf()), id, tries, i)
      {
        if Aliases.NothingRead(tries) { Aliases.UndisturbedTries(old(FenceOf()), id, tries, i); }
        ReadNotes(tries[i].around.test);
        var equal := InitialConfigOptionEqual(id, tries[i].value);
        if equal {
          return Some(i), rpcs;
        }
        SetAgentConfigOption(id, tries[i]);
        rpcs := rpcs + 1;
        if !tries[i].answer.Refused? {
          if Aliases.NothingRead(tries) { Aliases.UndisturbedTries(old(FenceOf()), id, tries, i + 1); }
          return Some(i), rpcs;
        }
      }
      if Aliases.NothingRead(tries) { Aliases.UndisturbedTries(old(FenceOf()), id, tries, |tries|); }
      applied := None;
    }

    /**
     applyInitialConfigMode when nothing is read while its RPCs are under way; `answers[i]` is what the provider
     would say to alias i, `last` what it would say to the plain mode. No RPC is sent exactly when the first usable
     alias is the cached mode and nothing is pending; otherwise the first alias not refused is applied, and the
     plain mode is tried only when no alias is usable. `at` is the alias applied.
     */
    method ApplyInitialConfigMode(
        wanted: string, aliases: seq<Option<Config.Setting>>, answers: seq<Config.Answer>, last: Config.Answer)
      returns (applied: Option<string>, rpcs: nat, ghost at: nat)
      requires |answers| == |aliases|
      modifies `mode, `rawConfig, `configOptionsCurrent, `configChangeVersion, `configChangesPending
      ensures configChangesPending == old(configChangesPending) && configChangeVersion == old(configChangeVersion) + rpcs
      ensures rpcs == 0 <==> ModeIsCached(old(FenceOf()), aliases)
      ensures rpcs == 0 <==> old(configChangesPending) == 0 && IsFirstUsable(aliases, old(mode))
      ensures rpcs == 0 ==> FenceOf() == old(FenceOf()) && applied == Some(mode)
      ensures rpcs > 0 && applied.Some? && FirstMode(aliases).Some? ==>
        at < |aliases| && ModeOf(aliases[at]) == applied && !answers[at].Refused? && mode == applied.value
        && RefusedUpTo(aliases, answers, at)
      ensures FirstMode(aliases).None? ==>
        rpcs == 1 && applied == (if last.Refused? then None else Some("")) && (!last.Refused? ==> mode == wanted)
      ensures FirstMode(aliases).Some? && applied.None? ==> RefusedUpTo(aliases, answers, |aliases|)
    {
      hide Strings.TrimSpace, IsFirstUsable;
      FirstModeIsUsable(aliases, mode);
      rpcs, at := 0, 0;
      var failed := false;
      for i := 0 to |aliases|
        invariant RefusedUpTo(aliases, answers, i) && (failed <==> FirstMode(aliases[..i]).Some?)
        invariant configChangesPending == old(configChangesPending) && (rpcs > 0 <==> failed)
        invariant configChangeVersion == old(configChangeVersion) + rpcs
        invariant !failed ==> FenceOf() == old(FenceOf())
        invariant failed ==> !ModeIsCached(old(FenceOf()), aliases)
        invariant failed ==> FirstMode(aliases).Some?
      {
        at := i;
        FirstModeGrows(aliases, i);
        var modeID := ModeOf(aliases[i]);
        if modeID.None? {
          continue;
        }
        if failed || configChangesPending != 0 || mode != modeID.value {
          SetAgentMode(modeID.value, answers[i]);
          rpcs := rpcs + 1;
          if answers[i].Refused? {
            failed := true;
            continue;
          }
        }
        return modeID, rpcs, at;
      }
      assert aliases[..|aliases|] == aliases;
      if failed {
        return None, rpcs, at;
      }
      SetAgentMode(wanted, last);
      rpcs := rpcs + 1;
      applied := if last.Refused? then None else Some("");
    }

    // ---------- tool calls ----------

    /** pruneToolCallsLocked: finished calls first, then any; the maps are visited in an arbitrary order. */
    method PruneToolCalls()
      requires toolCalls.Keys == operations.Keys
      modifies `toolCalls, `operations
      ensures ReadModel.PrunedTo(old(ToolsOf()), ReadModel.Limit(maxToolCalls, ReadModel.DEFAULT_TOOL_CALLS), ToolsOf())
      ensures var max := if maxToolCalls == 0 then 128 else maxToolCalls;
        |toolCalls| == if 0 <= max < |old(toolCalls)| then max else |old(toolCalls)|
      ensures ReadModel.DropsFinishedFirst(old(ToolsOf()), ToolsOf())
    {
      hide ReadModel.Within, ReadModel.FinishedFirst, ReadModel.Finished, ReadModel.DropsFinishedFirst;
      var max := maxToolCalls;
      if max == 0 {
        max := ReadModel.DEFAULT_TOOL_CALLS;
      }
      if max < 0 || |toolCalls| <= max {
        PrunedToNothing(ToolsOf(), max);
        ReadModel.PrunedDropsFinishedFirst(ToolsOf(), max, ToolsOf());
        return;
      }
      ghost var before := ToolsOf();
      DropFinished(max);
      ghost var between := ToolsOf();
      if |toolCalls| > max {
        DropAny(max);
      } else {
        PrunedToNothing(between, max);
      }
      PrunedInTwo(before, between, ToolsOf(), max);
      ReadModel.PrunedDropsFinishedFirst(before, max, ToolsOf());
    }

    method DropFinished(max: nat)
      requires toolCalls.Keys == operations.Keys && |toolCalls| > max
      modifies `toolCalls, `operations
      ensures toolCalls.Keys == operations.Keys && |toolCalls| >= max
      ensures ReadModel.Within(ToolsOf(), old(ToolsOf()))
      ensures forall k | k in old(toolCalls) && k !in toolCalls :: ReadModel.Finished(old(toolCalls)[k])
      ensures |toolCalls| > max ==> forall k | k in toolCalls :: !ReadModel.Finished(toolCalls[k])
    {
      var todo := toolCalls.Keys;
      while todo != {}
        invariant todo <= toolCalls.Keys <= old(toolCalls).Keys && toolCalls.Keys == operations.Keys
        invariant forall k | k in toolCalls :: toolCalls[k] == old(toolCalls)[k] && operations[k] == old(operations)[k]
        invariant forall k | k in old(toolCalls) && k !in toolCalls :: ReadModel.Finished(old(toolCalls)[k])
        invariant forall k | k in toolCalls && k !in todo :: !ReadModel.Finished(toolCalls[k])
        invariant |toolCalls| >= max
      {
        if |toolCalls| <= max {
          return;
        }
        var id :| id in todo;
        todo := todo - {id};
        if toolCalls[id].status == "completed" || toolCalls[id].status == "failed" {
          Drop(id);
        }
      }
    }

    method DropAny(max: nat)
      requires toolCalls.Keys == operations.Keys && |toolCalls| > max
      modifies `toolCalls, `operations
      ensures toolCalls.Keys == operations.Keys && |toolCalls| == max
      ensures ReadModel.Within(ToolsOf(), old(ToolsOf()))
    {
      var todo := toolCalls.Keys;
      while todo != {}
        invariant todo == toolCalls.Keys <= old(toolCalls).Keys && toolCalls.Keys == operations.Keys
        invariant forall k | k in toolCalls :: toolCalls[k] == old(toolCalls)[k] && operations[k] == old(operations)[k]
        invariant |toolCalls| >= max
      {
        if |toolCalls| <= max {
          return;
        }
        var id :| id in todo;
        todo := todo - {id};
        Drop(id);
      }
    }

    method Drop(id: string)
      requires id in toolCalls && toolCalls.Keys == operations.Keys
      modifies `toolCalls, `operations
      ensures toolCalls == old(toolCalls) - {id} && operations == old(operations) - {id}
      ensures toolCalls.Keys == operations.Keys == old(toolCalls).Keys - {id}
      ensures |toolCalls| == |old(toolCalls)| - 1
    {
      toolCalls := map k | k in toolCalls && k != id :: toolCalls[k];
      operations := map k | k in operations && k != id :: operations[k];
      assert toolCalls.Keys == old(toolCalls).Keys - {id};
      assert |toolCalls| == |toolCalls.Keys|;
    }

    method StoreTool(e: ReadModel.ToolEvent)
      requires ReadModel.Agree(ToolsOf()) && ReadModel.WithinCap(ToolsOf(), maxToolCalls)
      modifies `toolCalls, `operations
      ensures ReadModel.ToolStep(old(ToolsOf()), e, maxToolCalls, ToolsOf())
      ensures ReadModel.Agree(ToolsOf()) && ReadModel.WithinCap(ToolsOf(), maxToolCalls)
      ensures ReadModel.Updates(old(ToolsOf()), e, ToolsOf())
      ensures e.u.id != "" && ReadModel.Fits(old(ToolsOf()), e.u.id, maxToolCalls) ==>
        toolCalls.Keys == old(toolCalls).Keys + {e.u.id}
    {
      hide ReadModel.OperationPhase, ReadModel.PrunedTo, ReadModel.WithinCap, ReadModel.Updates, ReadModel.Fits;
      var id := e.u.id;
      if id == "" {
        ReadModel.StepUpdates(ToolsOf(), e, maxToolCalls, ToolsOf());
        return;
      }
      ReadModel.StoredAgrees(ToolsOf(), e);
      match e {
        case Call(u) =>
          var (call, operation) := ReadModel.Created(u);
          toolCalls, operations := toolCalls[id := call], operations[id := operation];
        case CallUpdate(u) =>
          var call := if id in toolCalls then toolCalls[id] else ReadModel.NO_CALL;
          call := ReadModel.Overlaid(call, u);
          var operation := if id in operations then operations[id] else ReadModel.NO_OPERATION;
          operation := operation.(phase := ReadModel.OperationPhase(call.status));
          toolCalls, operations := toolCalls[id := call], operations[id := operation];
      }
      assert ToolsOf() == ReadModel.Stored(old(ToolsOf()), e);
      PruneToolCalls();
      ReadModel.ToolStepKeepsAgreement(old(ToolsOf()), e, maxToolCalls, ToolsOf());
      ReadModel.StepUpdates(old(ToolsOf()), e, maxToolCalls, ToolsOf());
      if ReadModel.Fits(old(ToolsOf()), id, maxToolCalls) {
        ReadModel.StepLists(old(ToolsOf()), e, maxToolCalls, ToolsOf());
      }
    }

    // ---------- session updates ----------

    /** The switch over the update's kind. */
    method ApplyUpdate(u: SessionUpdate)
      requires Valid()
      modifies if currentTurn == null then {} else {currentTurn}, `life, `toolCalls, `operations,
               `title, `updatedAt, `availableCommands,
               `mode, `options, `rawConfig, `configChangeVersion, `configOptionsCurrent
      ensures Valid() && turns == old(turns)
      ensures if KindOf(u.kind).MessageKind? then Stepped(old(life), Message(UpdateText(u)), life) else life == old(life)
      ensures FenceOf() == FenceAfter(old(FenceOf()), u)
      ensures InfoOf() == InfoAfter(old(InfoOf()), u)
      ensures ToolsAfter(old(ToolsOf()), u, maxToolCalls, ToolsOf())
      ensures currentTurn != null ==>
        currentTurn.outputText == old(currentTurn.outputText) + if KindOf(u.kind).MessageKind? then UpdateText(u) else ""
    {
      hide Driver.LifeShown, Driver.ThreadShows, Inv, Next, TurnId, UpdateText, ReadModel.ToolStep, ReadModel.Agree,
        ReadModel.WithinCap, ReadModel.Updates, ReadModel.Fits, Config.NotifyMode, Config.NotifyOptions, Stepped, KindOf;
      match KindOf(u.kind) {
        case MessageKind => AddMessage(UpdateText(u));
        case ModeKind => NoteMode(u.mode);
        case OptionsKind => NoteOptions(u.configOptions);
        case InfoKind =>
          if u.tool.title.Some? {
            title := u.tool.title.value;
          }
          if u.updatedAt.Some? {
            updatedAt := u.updatedAt.value;
          }
        case CommandsKind => availableCommands := u.commands;
        case CallKind => StoreTool(ReadModel.Call(u.tool));
        case CallUpdateKind => StoreTool(ReadModel.CallUpdate(u.tool));
        case OtherKind =>
      }
    }

    /**
     handleSessionUpdate up to the end of its lock section, by the kinds of the wire. `active` is the turn the update
     belongs to; with none, the notification goes on to be bound. One for another session changes nothing.
     */
    method HandleSessionUpdate(session: string, u: SessionUpdate) returns (active: ActiveTurn?, orphaned: bool)
      requires Valid()
      modifies if currentTurn == null then {} else {currentTurn}, `life, `toolCalls, `operations,
               `title, `updatedAt, `availableCommands,
               `mode, `options, `rawConfig, `configChangeVersion, `configOptionsCurrent
      ensures Valid() && turns == old(turns)
      ensures session != "" && session != sessionID ==>
        && active == null && !orphaned && life == old(life) && FenceOf() == old(FenceOf()) && ToolsOf() == old(ToolsOf())
        && InfoOf() == old(InfoOf()) && (currentTurn != null ==> currentTurn.outputText == old(currentTurn.outputText))
      ensures session == "" || session == sessionID ==>
        && active == currentTurn && (orphaned <==> active == null)
        && FenceFollows(old(FenceOf()), u, FenceOf()) && InfoFollows(old(InfoOf()), u, InfoOf())
        && ToolsFollow(old(ToolsOf()), u, maxToolCalls, ToolsOf())
      ensures session == "" || session == sessionID ==>
        if u.kind == "agent_message_chunk" || u.kind == "agent_message" || u.kind == "message" then
          && Stepped(old(life), Message(UpdateText(u)), life)
          && (currentTurn != null ==> currentTurn.outputText == old(currentTurn.outputText) + UpdateText(u))
        else life == old(life) && (currentTurn != null ==> currentTurn.outputText == old(currentTurn.outputText))
    {
      hide Driver.LifeShown, Driver.ThreadShows, UpdateText, FenceAfter, InfoAfter, ToolsAfter, Inv, Stepped, KindOf,
        FenceFollows, InfoFollows, ToolsFollow, ReadModel.Agree, ReadModel.WithinCap;
      active, orphaned := null, false;
      if session != "" && session != sessionID {
        return;
      }
      active, orphaned := currentTurn, currentTurn == null;
      KindsOnTheWire(u.kind);
      FenceOnTheWire(FenceOf(), u);
      InfoOnTheWire(InfoOf(), u);
      ApplyUpdate(u);
      ToolsOnTheWire(old(ToolsOf()), u, maxToolCalls, ToolsOf());
    }

    method NoteMode(modeID: string)
      modifies `mode, `rawConfig, `configChangeVersion, `configOptionsCurrent
      ensures FenceOf() == Config.NotifyMode(old(FenceOf()), modeID)
    {
      if modeID != "" {
        configChangeVersion, configOptionsCurrent := configChangeVersion + 1, false;
        mode := modeID;
        rawConfig := rawConfig["mode" := Some(Config.Text(modeID))];
      }
    }

    method NoteOptions(snapshot: seq<Config.ConfigOption>)
      modifies `options, `rawConfig, `configChangeVersion, `configOptionsCurrent
      ensures FenceOf() == Config.NotifyOptions(old(FenceOf()), snapshot)
    {
      configChangeVersion := configChangeVersion + 1;
      ReplaceConfigOptions(snapshot);
    }

    method AddMessage(text: string)
      requires Valid()
      modifies `life, if currentTurn == null then {} else {currentTurn}
      ensures Valid() && Stepped(old(life), Message(text), life) && turns == old(turns)
      ensures currentTurn != null ==> currentTurn.outputText == old(currentTurn.outputText) + text
    {
      hide Driver.ThreadShows, ReadModel.Agree, ReadModel.WithinCap, Orphans.TakeTerminal, Inv, Next, TurnId;
      CurrentIsListed(life);
      if currentTurn == null {
        IdleStep(life, Message(text));
      } else {
        SimpleEffect(life, Message(text), life.current.value);
        currentTurn.outputText := currentTurn.outputText + text;
        life := Next(life, Message(text));
      }
    }

    /** recordPermission numbers requests without a tool call from the same counter as turns. */
    method NumberPermission(toolCallID: string) returns (id: string)
      requires Valid()
      modifies `turnSeq, `life
      ensures Valid() && Stepped(old(life), Permission(toolCallID != ""), life)
      ensures id == if toolCallID != "" then toolCallID else "permission-" + Turns.Decimal.ToDecimal(turnSeq)
      ensures toolCallID == "" ==> turnSeq == old(turnSeq) + 1
    {
      hide Driver.ThreadShows, ReadModel.Agree, ReadModel.WithinCap, Orphans.TakeTerminal, Inv, TurnId;
      StepKeepsInv(life, Permission(toolCallID != ""));
      id := toolCallID;
      if id == "" {
        turnSeq := turnSeq + 1;
        id := "permission-" + Turns.Decimal.ToDecimal(turnSeq);
      }
      life := Next(life, Permission(toolCallID != ""));
    }
  }
}
