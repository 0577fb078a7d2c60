/**
 The read loop, the read-idle callbacks and the output text of a turn, around the turn lifecycle: which lines a
 completed turn's text covers. Lines are the complete JSON lines in the reader's buffer; each lock section is a
 step, and the loop can be overtaken by any other goroutine between two of its steps.
 */
module TurnOutput {
  import opened Options
  import opened Turns

  /** A message update of this session, a successful response to a turn's session/prompt, or anything else. */
  datatype Line = MessageLine(text: string) | ResponseLine(k: nat) | OtherLine

  /** Where Peer.Start is. */
  datatype Loop =
    | Top                           // about to look for a buffered line
    | Callbacks(todo: seq<nat>)     // markReadIdle(true) runs what it took
    | Reading                       // in readMessageLine
    | Got                           // has a line, markReadIdle(false) is next
    | Dispatching
    | Ended

  /** Where runPrompt is after it sent the request. */
  datatype Stage = Requested | Answered | Queued | Settling | Snapped(text: string) | Over

  /**
   `starts` and `ends` count the lines handled when the turn became current and when it was detached, `bound`
   the lines buffered when its response was dispatched, `cut` those handled when its text was read; `afterEnd`
   tells whether the loop had ended by then.
   */
  datatype Prompt = Prompt(
    stage: Stage, starts: nat, ends: nat, bound: nat, cut: nat, onLoop: bool, afterEnd: bool, ran: nat)

  datatype System = System(
    core: State, wire: seq<Line>, handled: nat, loop: Loop, readIdle: bool, idleFns: seq<nat>, prompts: seq<Prompt>)

  const BOOT := System(START, [], 0, Top, false, [], [])

  datatype Move =
    | Host(a: Action)                      // any step of the lifecycle but the prompt's own and the messages
    | PromptFails(k: nat, message: string)
    | GiveToIdle(k: nat)                   // AfterIdle
    | ReadText(k: nat)                     // the first lock section of settle
    | Finish(k: nat, stopReason: string)   // its call of finishTurn
    | LookForLine
    | NextCallback
    | Fill(line: Line)
    | TakeLine
    | Wake                                 // markReadIdle(false)
    | Dispatch
    | EndLoop

  predicate AtStage(s: System, k: nat, stage: Stage) {
    k < |s.prompts| && s.prompts[k].stage == stage
  }

  predicate IsHead(s: System, k: nat) {
    s.loop.Callbacks? && s.loop.todo != [] && s.loop.todo[0] == k
  }

  function Settled(k: nat, text: string, stopReason: string, t: Turn): Action {
    PromptEnds(k, Completed(TurnId(t.number), text, stopReason))
  }

  predicate Movable(s: System, m: Move) {
    match m
    case Host(a) => !a.PromptEnds? && !a.Message? && Enabled(s.core, a)
    case PromptFails(k, message) =>
      (AtStage(s, k, Requested) || AtStage(s, k, Answered)) && Enabled(s.core, PromptEnds(k, Failed(PromptError(message))))
    case GiveToIdle(k) => AtStage(s, k, Answered)
    case ReadText(k) => AtStage(s, k, Settling) && k < |s.core.turns| && (s.prompts[k].onLoop ==> IsHead(s, k))
    case Finish(k, stop) =>
      && k < |s.prompts| && s.prompts[k].stage.Snapped? && k < |s.core.turns|
      && Enabled(s.core, Settled(k, s.prompts[k].stage.text, stop, s.core.turns[k]))
    case LookForLine => s.loop.Top?
    case NextCallback =>
      && s.loop.Callbacks?
      && (s.loop.todo != [] ==>
            var k := s.loop.todo[0]; AtStage(s, k, Over) && k < |s.core.turns| && s.core.turns[k].phase.Finished?)
    case Fill(_) => s.loop.Reading?
    case TakeLine => s.loop.Reading? && s.handled < |s.wire|
    case Wake => s.loop.Got?
    case Dispatch => s.loop.Dispatching? && s.handled < |s.wire|
    case EndLoop => s.loop.Reading? || s.loop.Top?
  }

  function Opened(s: System, core: State): seq<Prompt> {
    if |core.turns| > |s.core.turns| then s.prompts + [Prompt(Requested, s.handled, 0, 0, 0, false, false, 0)] else s.prompts
  }

  /** What a step of the lifecycle means for the prompts: a start adds one, a detach ends the text of one. */
  function HostPrompts(s: System, a: Action, core: State): seq<Prompt> {
    match a
    case StartTurn(_) => Opened(s, core)
    case Detach(k) => if k < |s.prompts| then s.prompts[k := s.prompts[k].(ends := s.handled)] else s.prompts
    case _ => s.prompts
  }

  function WithStage(s: System, k: nat, stage: Stage): seq<Prompt>
    requires k < |s.prompts|
  {
    s.prompts[k := s.prompts[k].(stage := stage)]
  }

  function Handle(s: System, line: Line): System {
    match line
    case MessageLine(text) => s.(core := Next(s.core, Message(text)))
    case ResponseLine(k) =>
      if AtStage(s, k, Requested) then s.(prompts := s.prompts[k := s.prompts[k].(stage := Answered, bound := |s.wire|)])
      else s
    case OtherLine => s
  }

  function Taken(s: System): seq<Prompt> {
    seq(|s.prompts|, k requires 0 <= k < |s.prompts| =>
      if k in s.idleFns then s.prompts[k].(stage := Settling, onLoop := true) else s.prompts[k])
  }

  function Go(s: System, m: Move): System
    requires Movable(s, m)
  {
    match m
    case Host(a) =>
      var core := Next(s.core, a);
      s.(core := core, prompts := HostPrompts(s, a, core))
    case PromptFails(k, message) =>
      s.(core := Next(s.core, PromptEnds(k, Failed(PromptError(message)))), prompts := WithStage(s, k, Over))
    case GiveToIdle(k) =>
      if s.readIdle then s.(prompts := WithStage(s, k, Settling))
      else s.(prompts := WithStage(s, k, Queued), idleFns := s.idleFns + [k])
    case ReadText(k) =>
      var p := s.prompts[k];
      var q := p.(stage := Snapped(s.core.turns[k].text), cut := s.handled, afterEnd := s.loop.Ended?, ran := p.ran + 1);
      s.(prompts := s.prompts[k := q])
    case Finish(k, stop) =>
      s.(core := Next(s.core, Settled(k, s.prompts[k].stage.text, stop, s.core.turns[k])), prompts := WithStage(s, k, Over))
    case LookForLine =>
      if s.handled < |s.wire| then s.(loop := Reading)
      else s.(readIdle := true, loop := Callbacks(s.idleFns), idleFns := [], prompts := Taken(s))
    case NextCallback => s.(loop := if s.loop.todo == [] then Reading else Callbacks(s.loop.todo[1..]))
    case Fill(line) => s.(wire := s.wire + [line])
    case TakeLine => s.(loop := Got)
    case Wake => s.(readIdle := false, loop := Dispatching)
    case Dispatch => Handle(s, s.wire[s.handled]).(handled := s.handled + 1, loop := Top)
    case EndLoop => s.(readIdle := false, loop := Ended)
  }

  function Run(moves: seq<Move>): Option<System> {
    if moves == [] then Some(BOOT)
    else
      var before := Run(moves[..|moves| - 1]);
      if before.None? || !Movable(before.value, moves[|moves| - 1]) then None
      else Some(Go(before.value, moves[|moves| - 1]))
  }

  // ---------- every step is a step of the lifecycle, or none ----------

  function CoreStep(s: System, m: Move): Option<Action>
    requires Movable(s, m)
  {
    match m
    case Host(a) => Some(a)
    case PromptFails(k, message) => Some(PromptEnds(k, Failed(PromptError(message))))
    case Finish(k, stop) => Some(Settled(k, s.prompts[k].stage.text, stop, s.core.turns[k]))
    case Dispatch => if s.wire[s.handled].MessageLine? then Some(Message(s.wire[s.handled].text)) else None
    case _ => None
  }

  lemma CoreFollows(s: System, m: Move)
    requires Movable(s, m)
    ensures var a := CoreStep(s, m);
      if a.Some? then Enabled(s.core, a.value) && Go(s, m).core == Next(s.core, a.value) else Go(s, m).core == s.core
  {
    hide Next, TurnId;
  }

  function CoreRun(moves: seq<Move>): seq<Action>
    requires Run(moves).Some?
  {
    if moves == [] then []
    else
      var a := CoreStep(Run(moves[..|moves| - 1]).value, moves[|moves| - 1]);
      CoreRun(moves[..|moves| - 1]) + (if a.Some? then [a.value] else [])
  }

  /** The turns of every run of the whole system are those of a run of the lifecycle. */
  lemma {:induction false} RunRefinesLifecycle(moves: seq<Move>)
    requires Run(moves).Some?
    ensures Play(CoreRun(moves)) == Some(Run(moves).value.core)
  {
    hide Go, Next, Enabled, Movable, CoreStep, Play;
    if moves == [] {
      assert Play([]) == Some(START) by { EmptyPlay(); }
    } else {
      var g, m := moves[..|moves| - 1], moves[|moves| - 1];
      RunRefinesLifecycle(g);
      CoreFollows(Run(g).value, m);
      var a := CoreStep(Run(g).value, m);
      if a.Some? { PlayAppend(CoreRun(g), a.value); } else { assert CoreRun(g) + [] == CoreRun(g); }
    }
  }

  lemma EmptyPlay()
    ensures Play([]) == Some(START)
  {
  }

  // ---------- the text of a stretch of lines ----------

  function TextOf(lines: seq<Line>): string {
    if lines == [] then ""
    else
      var last := lines[|lines| - 1];
      TextOf(lines[..|lines| - 1]) + (if last.MessageLine? then last.text else "")
  }

  lemma TextGrows(wire: seq<Line>, i: nat, j: nat)
    requires i <= j < |wire|
    ensures TextOf(wire[i..j + 1]) == TextOf(wire[i..j]) + (if wire[j].MessageLine? then wire[j].text else "")
  {
    assert wire[i..j + 1][..j - i] == wire[i..j];
  }

  lemma {:induction false} TextIsMonotone(wire: seq<Line>, i: nat, j: nat, k: nat)
    requires i <= j <= k <= |wire|
    ensures TextOf(wire[i..j]) <= TextOf(wire[i..k])
    decreases k
  {
    if j < k {
      TextIsMonotone(wire, i, j, k - 1);
      TextGrows(wire, i, k - 1);
    }
  }

  // ---------- the invariant ----------

  /** The lines handled while a turn was current end here. */
  function End(t: Turn, p: Prompt, handled: nat): nat {
    if Unfinished(t) then handled else p.ends
  }

  ghost predicate TextOk(t: Turn, p: Prompt, wire: seq<Line>, handled: nat) {
    && p.starts <= End(t, p, handled) <= handled <= |wire|
    && t.text == TextOf(wire[p.starts..End(t, p, handled)])
  }

  predicate StageOk(t: Turn, p: Prompt, idle: bool, lines: nat, handled: nat) {
    && (p.stage != Over ==> t.prompting)
    && p.ran == (if p.stage.Snapped? then 1 else if p.stage.Over? then p.ran else 0)
    && p.ran <= 1
    && p.bound <= lines
    && (p.stage.Requested? || p.stage.Answered? ==> !p.onLoop)
    && (p.stage.Answered? && idle ==> p.bound <= handled)
    && (p.stage.Settling? ==> p.bound <= handled)
    && (p.ran == 1 ==> p.bound <= p.cut <= handled)
  }

  /** What has been read of the text, and what the winner took of it. */
  ghost predicate CutOk(t: Turn, p: Prompt, head: bool, wire: seq<Line>, handled: nat) {
    && handled <= |wire|
    && (p.stage.Snapped? && Unfinished(t) ==> p.starts <= p.cut <= handled && p.stage.text == TextOf(wire[p.starts..p.cut]))
    && (p.stage.Snapped? && p.onLoop ==> head && p.cut == handled)
    && (t.winner.Some? && t.winner.value.Completed? ==> WinnerOk(t, p, head, wire, handled))
  }

  ghost predicate WinnerOk(t: Turn, p: Prompt, head: bool, wire: seq<Line>, handled: nat)
    requires t.winner.Some? && t.winner.value.Completed? && handled <= |wire|
  {
    && p.stage.Over? && p.ran == 1
    && p.starts <= p.cut <= End(t, p, handled) <= handled
    && t.winner.value.text == TextOf(wire[p.starts..p.cut])
    && (p.onLoop ==> p.cut == End(t, p, handled))
    && (p.onLoop && Unfinished(t) ==> head)
  }

  ghost predicate PromptOk(s: System, k: nat)
    requires k < |s.prompts| == |s.core.turns|
  {
    var t, p := s.core.turns[k], s.prompts[k];
    && TextOk(t, p, s.wire, s.handled)
    && StageOk(t, p, s.readIdle, |s.wire|, s.handled)
    && CutOk(t, p, IsHead(s, k), s.wire, s.handled)
  }

  predicate LoopOk(s: System) {
    && s.handled <= |s.wire|
    && (s.loop.Dispatching? || s.loop.Got? ==> s.handled < |s.wire|)
    && (s.loop.Dispatching? || s.loop.Top? || s.loop.Ended? ==> !s.readIdle)
    && (forall k | k in s.idleFns :: AtStage(s, k, Queued))
  }

  ghost predicate SystemOk(s: System) {
    && Inv(s.core)
    && LoopOk(s)
    && |s.prompts| == |s.core.turns|
    && forall k | 0 <= k < |s.prompts| :: PromptOk(s, k)
  }

  /** The callbacks that the loop still has to run are settles on the loop. */
  predicate CallbacksOk(s: System) {
    s.loop.Callbacks? ==> forall k | k in s.loop.todo :: OnTheLoop(s, k)
  }

  predicate OnTheLoop(s: System, k: nat) {
    && k < |s.prompts| && s.prompts[k].onLoop
    && (s.prompts[k].stage.Settling? || s.prompts[k].stage.Snapped? || s.prompts[k].stage.Over?)
  }

  /** Nothing is handled any more once the loop has ended. */
  predicate AfterEndOk(s: System) {
    forall k | 0 <= k < |s.prompts| && s.prompts[k].afterEnd :: s.loop.Ended? && s.prompts[k].cut == s.handled
  }

  // ---------- what does not concern a prompt keeps it ----------

  lemma Untouched(s: System, u: System, k: nat)
    requires k < |s.prompts| == |s.core.turns| && k < |u.prompts| == |u.core.turns| && PromptOk(s, k)
    requires u.core.turns[k] == s.core.turns[k] && u.prompts[k] == s.prompts[k]
    requires u.wire == s.wire && u.handled == s.handled && (u.readIdle ==> s.readIdle) && (IsHead(s, k) ==> IsHead(u, k))
    ensures PromptOk(u, k)
  {
    hide TextOf, Unfinished;
  }

  /** How a step of the lifecycle other than a detach may change a turn, as far as its output goes. */
  predicate SameOutput(t: Turn, u: Turn) {
    && u.text == t.text && u.prompting == t.prompting && (Unfinished(u) <==> Unfinished(t))
    && (u.winner == t.winner || (t.winner.None? && u.winner.Some? && u.winner.value.Failed?))
  }

  lemma SameOutputKeeps(s: System, u: System, k: nat)
    requires k < |s.prompts| == |s.core.turns| && k < |u.prompts| == |u.core.turns| && PromptOk(s, k)
    requires SameOutput(s.core.turns[k], u.core.turns[k]) && u.prompts[k] == s.prompts[k]
    requires u.wire == s.wire && u.handled == s.handled && u.readIdle == s.readIdle && u.loop == s.loop
    ensures PromptOk(u, k)
  {
    hide TextOf, Unfinished;
  }

  lemma HostTurnChange(t: Turn, a: Action)
    requires TurnOk(t) && !a.PromptEnds? && !a.Message? && !a.Detach?
    requires a.Send? ==> t.phase.Detached?
    requires a.CloseChannel? ==> t.phase.Sent?
    ensures SameOutput(t, TurnNext(t, a))
  {
    hide TurnId;
  }

  lemma HostKeepsPrompt(s: System, a: Action, k: nat)
    requires SystemOk(s) && Movable(s, Host(a)) && k < |Go(s, Host(a)).prompts|
    ensures |Go(s, Host(a)).prompts| == |Go(s, Host(a)).core.turns|
    ensures PromptOk(Go(s, Host(a)), k)
  {
    hide Next, TextOf, TurnNext, Inv, Enabled, PromptOk, LoopOk, Target;
    var u := Go(s, Host(a));
    TurnsAfter(s.core, a);
    if a.Detach? {
      DetachKeepsPrompt(s, a.k, k);
    } else if a.StartTurn? && k == |s.prompts| {
      NewPromptIsOk(s, a, k);
    } else if Target(s.core, a) == Some(k) {
      TargetMayStep(s.core, a);
      HostTurnChange(s.core.turns[k], a);
      SameOutputKeeps(s, u, k);
    } else {
      Untouched(s, u, k);
    }
  }

  lemma NewPromptIsOk(s: System, a: Action, k: nat)
    requires SystemOk(s) && Movable(s, Host(a)) && a.StartTurn? && k == |s.prompts| < |Go(s, Host(a)).prompts|
    ensures |Go(s, Host(a)).prompts| == |Go(s, Host(a)).core.turns|
    ensures PromptOk(Go(s, Host(a)), k)
  {
    hide TurnNext, Inv, TurnId, PromptOk;
    TurnsAfter(s.core, a);
    var u := Go(s, Host(a));
    assert u.core.turns[k] == NewTurn(s.core.turnSeq + 1, a.prompt);
    assert u.wire[s.handled..s.handled] == [];
    assert PromptOk(u, k) by { FreshPrompt(u, k); }
  }

  lemma FreshPrompt(u: System, k: nat)
    requires k < |u.prompts| == |u.core.turns| && u.handled <= |u.wire|
    requires u.prompts[k] == Prompt(Requested, u.handled, 0, 0, 0, false, false, 0)
    requires exists number, prompt :: u.core.turns[k] == NewTurn(number, prompt)
    ensures PromptOk(u, k)
  {
    assert u.wire[u.handled..u.handled] == [];
  }

  lemma DetachKeepsPrompt(s: System, j: nat, k: nat)
    requires SystemOk(s) && Movable(s, Host(Detach(j))) && k < |Go(s, Host(Detach(j))).prompts|
    ensures |Go(s, Host(Detach(j))).prompts| == |Go(s, Host(Detach(j))).core.turns|
    ensures PromptOk(Go(s, Host(Detach(j))), k)
  {
    hide Next, TextOf, Inv, PromptOk, LoopOk;
    var u := Go(s, Host(Detach(j)));
    TurnsAfter(s.core, Detach(j));
    if k == j {
      DetachedPrompt(s, u, k);
    } else {
      Untouched(s, u, k);
    }
  }

  lemma DetachedPrompt(s: System, u: System, k: nat)
    requires k < |s.prompts| == |s.core.turns| && k < |u.prompts| == |u.core.turns| && PromptOk(s, k)
    requires s.core.turns[k].phase.Claimed? && u.core.turns[k] == TurnNext(s.core.turns[k], Detach(k))
    requires u.prompts[k] == s.prompts[k].(ends := s.handled)
    requires u.wire == s.wire && u.handled == s.handled && u.readIdle == s.readIdle && u.loop == s.loop
    ensures PromptOk(u, k)
  {
    hide TextOf;
  }

  // ---------- the prompt's own steps ----------

  lemma PromptEndsTurn(s: System, k: nat, r: Result)
    requires SystemOk(s) && Enabled(s.core, PromptEnds(k, r))
    ensures k < |s.core.turns| && Next(s.core, PromptEnds(k, r)).turns ==
      s.core.turns[k := TurnNext(s.core.turns[k], PromptEnds(k, r))]
  {
    hide PromptOk, LoopOk, Inv;
    TurnsAfter(s.core, PromptEnds(k, r));
  }

  lemma FailKeepsPrompt(s: System, j: nat, message: string, k: nat)
    requires SystemOk(s) && Movable(s, PromptFails(j, message)) && k < |s.prompts|
    ensures PromptOk(Go(s, PromptFails(j, message)), k)
  {
    hide Next, TextOf, Inv, PromptOk, LoopOk, TurnId, TurnNext;
    var u := Go(s, PromptFails(j, message));
    PromptEndsTurn(s, j, Failed(PromptError(message)));
    TurnsAreOk(s.core);
    if k == j { FailedPrompt(s, u, k, message); } else { Untouched(s, u, k); }
  }

  lemma FailedPrompt(s: System, u: System, k: nat, message: string)
    requires k < |s.prompts| == |s.core.turns| && k < |u.prompts| == |u.core.turns| && PromptOk(s, k)
    requires s.prompts[k].stage.Requested? || s.prompts[k].stage.Answered?
    requires u.core.turns[k] == TurnNext(s.core.turns[k], PromptEnds(k, Failed(PromptError(message))))
    requires TurnOk(s.core.turns[k])
    requires u.prompts[k] == s.prompts[k].(stage := Over)
    requires u.wire == s.wire && u.handled == s.handled && u.readIdle == s.readIdle && u.loop == s.loop
    ensures PromptOk(u, k)
  {
    hide TextOf, TurnId;
  }

  lemma FinishKeepsPrompt(s: System, j: nat, stop: string, k: nat)
    requires SystemOk(s) && Movable(s, Finish(j, stop)) && k < |s.prompts|
    ensures PromptOk(Go(s, Finish(j, stop)), k)
  {
    hide Next, TextOf, Inv, PromptOk, LoopOk, TurnId, TurnNext;
    var u := Go(s, Finish(j, stop));
    var r := Completed(TurnId(s.core.turns[j].number), s.prompts[j].stage.text, stop);
    PromptEndsTurn(s, j, r);
    TurnsAreOk(s.core);
    if k == j { FinishedPrompt(s, u, k, r); } else { Untouched(s, u, k); }
  }

  lemma FinishedPrompt(s: System, u: System, k: nat, r: Result)
    requires k < |s.prompts| == |s.core.turns| && k < |u.prompts| == |u.core.turns| && PromptOk(s, k)
    requires s.prompts[k].stage.Snapped? && r.Completed? && r.text == s.prompts[k].stage.text
    requires TurnOk(s.core.turns[k]) && u.core.turns[k] == TurnNext(s.core.turns[k], PromptEnds(k, r))
    requires u.prompts[k] == s.prompts[k].(stage := Over)
    requires u.wire == s.wire && u.handled == s.handled && u.readIdle == s.readIdle && u.loop == s.loop
    ensures PromptOk(u, k)
  {
    hide TextOf, TurnId;
  }

  lemma ReadKeepsPrompt(s: System, j: nat, k: nat)
    requires SystemOk(s) && Movable(s, ReadText(j)) && k < |s.prompts|
    ensures PromptOk(Go(s, ReadText(j)), k)
  {
    hide TextOf, Inv, LoopOk, TurnId;
    var u := Go(s, ReadText(j));
    assert PromptOk(s, k);
    if k != j { Untouched(s, u, k); }
  }

  lemma GiveKeepsPrompt(s: System, j: nat, k: nat)
    requires SystemOk(s) && Movable(s, GiveToIdle(j)) && k < |s.prompts|
    ensures PromptOk(Go(s, GiveToIdle(j)), k)
  {
    hide TextOf, Inv, LoopOk, TurnId, Unfinished;
    var u := Go(s, GiveToIdle(j));
    assert PromptOk(s, k);
    if k != j { Untouched(s, u, k); }
  }

  // ---------- the read loop's steps ----------

  lemma LookKeepsPrompt(s: System, k: nat)
    requires SystemOk(s) && Movable(s, LookForLine) && k < |s.prompts|
    ensures PromptOk(Go(s, LookForLine), k)
  {
    hide TextOf, Inv, TurnId, Unfinished;
    var u := Go(s, LookForLine);
    assert PromptOk(s, k);
    if s.handled < |s.wire| {
      Untouched(s, u, k);
    } else if k in s.idleFns {
      assert AtStage(s, k, Queued);
    }
  }

  lemma NextKeepsPrompt(s: System, k: nat)
    requires SystemOk(s) && Movable(s, NextCallback) && k < |s.prompts|
    ensures PromptOk(Go(s, NextCallback), k)
  {
    hide TextOf, Inv, TurnId;
    assert PromptOk(s, k);
  }

  lemma FillKeepsPrompt(s: System, line: Line, k: nat)
    requires SystemOk(s) && Movable(s, Fill(line)) && k < |s.prompts|
    ensures PromptOk(Go(s, Fill(line)), k)
  {
    hide TextOf, Inv, TurnId, Unfinished;
    assert PromptOk(s, k);
    var p, e := s.prompts[k], End(s.core.turns[k], s.prompts[k], s.handled);
    assert (s.wire + [line])[p.starts..e] == s.wire[p.starts..e];
    if p.starts <= p.cut <= s.handled { assert (s.wire + [line])[p.starts..p.cut] == s.wire[p.starts..p.cut]; }
  }

  lemma MessageTurn(s: System, k: nat, text: string)
    requires SystemOk(s) && k < |s.core.turns|
    ensures |Next(s.core, Message(text)).turns| == |s.core.turns|
    ensures Next(s.core, Message(text)).turns[k] ==
      if Unfinished(s.core.turns[k]) then s.core.turns[k].(text := s.core.turns[k].text + text) else s.core.turns[k]
  {
    hide PromptOk, LoopOk, TurnOk, HistoryOf, Numbered, ClosingOk, TurnId;
    TurnsAfter(s.core, Message(text));
  }

  lemma DispatchKeepsPrompt(s: System, k: nat)
    requires SystemOk(s) && Movable(s, Dispatch) && k < |s.prompts|
    ensures |Go(s, Dispatch).prompts| == |Go(s, Dispatch).core.turns| == |s.prompts|
    ensures PromptOk(Go(s, Dispatch), k)
  {
    hide TextOf, Inv, TurnId, Next, PromptOk;
    var line := s.wire[s.handled];
    if line.MessageLine? { MessageTurn(s, k, line.text); }
    DispatchedPrompt(s, Go(s, Dispatch), k);
  }

  lemma DispatchedPrompt(s: System, u: System, k: nat)
    requires k < |s.prompts| == |s.core.turns| && k < |u.prompts| == |u.core.turns| && PromptOk(s, k)
    requires s.handled < |s.wire| && s.loop.Dispatching? && u.loop == Top && !s.readIdle && !u.readIdle
    requires u.wire == s.wire && u.handled == s.handled + 1
    requires
      var line, t := s.wire[s.handled], s.core.turns[k];
      u.core.turns[k] == if line.MessageLine? && Unfinished(t) then t.(text := t.text + line.text) else t
    requires
      var p := s.prompts[k];
      u.prompts[k] == p || (p.stage.Requested? && u.prompts[k] == p.(stage := Answered, bound := |s.wire|))
    ensures PromptOk(u, k)
  {
    hide TextOf;
    TextGrows(s.wire, s.prompts[k].starts, s.handled);
  }

  // ---------- the whole invariant ----------

  lemma LoopStep(s: System, m: Move)
    requires SystemOk(s) && Movable(s, m)
    ensures LoopOk(Go(s, m))
  {
    hide Inv, PromptOk, Next, TurnId, Enabled;
    var u := Go(s, m);
    forall k | k in u.idleFns ensures AtStage(u, k, Queued) {
      assert k in s.idleFns || m == GiveToIdle(k);
    }
  }

  lemma CallbacksStep(s: System, m: Move)
    requires SystemOk(s) && CallbacksOk(s) && Movable(s, m)
    ensures CallbacksOk(Go(s, m))
  {
    hide Inv, PromptOk, Next, TurnId, Enabled, TextOf;
    var u := Go(s, m);
    if u.loop.Callbacks? {
      forall k | k in u.loop.todo ensures OnTheLoop(u, k) {
        if m.LookForLine? {
          assert AtStage(s, k, Queued);
        } else {
          assert k in s.loop.todo && OnTheLoop(s, k);
        }
      }
    }
  }

  lemma AfterEndStep(s: System, m: Move)
    requires AfterEndOk(s) && Movable(s, m)
    ensures AfterEndOk(Go(s, m))
  {
    hide Next, TurnId, Enabled;
  }

  lemma StepKeepsPrompts(s: System, m: Move, k: nat)
    requires SystemOk(s) && Movable(s, m) && k < |Go(s, m).prompts|
    ensures |Go(s, m).prompts| == |Go(s, m).core.turns|
    ensures PromptOk(Go(s, m), k)
  {
    hide Inv, PromptOk, Next, TurnId, Enabled, LoopOk, TurnNext;
    match m
    case Host(a) => HostKeepsPrompt(s, a, k);
    case PromptFails(j, message) =>
      PromptEndsTurn(s, j, Failed(PromptError(message)));
      FailKeepsPrompt(s, j, message, k);
    case GiveToIdle(j) => GiveKeepsPrompt(s, j, k);
    case ReadText(j) => ReadKeepsPrompt(s, j, k);
    case Finish(j, stop) =>
      PromptEndsTurn(s, j, Completed(TurnId(s.core.turns[j].number), s.prompts[j].stage.text, stop));
      FinishKeepsPrompt(s, j, stop, k);
    case LookForLine => LookKeepsPrompt(s, k);
    case NextCallback => NextKeepsPrompt(s, k);
    case Fill(line) => FillKeepsPrompt(s, line, k);
    case Dispatch => DispatchKeepsPrompt(s, k);
    case _ => Untouched(s, Go(s, m), k);
  }

  lemma SizesAgree(s: System, m: Move)
    requires SystemOk(s) && Movable(s, m)
    ensures |Go(s, m).prompts| == |Go(s, m).core.turns|
  {
    hide Inv, PromptOk, Next, TurnId, Enabled, LoopOk, TurnNext;
    CoreFollows(s, m);
    if CoreStep(s, m).Some? { TurnsAfter(s.core, CoreStep(s, m).value); }
  }

  lemma StepKeepsSystem(s: System, m: Move)
    requires SystemOk(s) && Movable(s, m)
    ensures SystemOk(Go(s, m))
  {
    hide Inv, PromptOk, Next, Enabled, LoopOk, Go, CoreStep, Movable;
    CoreFollows(s, m);
    var a := CoreStep(s, m);
    if a.Some? { StepKeepsInv(s.core, a.value); }
    LoopStep(s, m);
    SizesAgree(s, m);
    forall k | 0 <= k < |Go(s, m).prompts| ensures PromptOk(Go(s, m), k) { StepKeepsPrompts(s, m, k); }
  }

  lemma {:induction false} RunKeepsSystem(moves: seq<Move>)
    requires Run(moves).Some?
    ensures SystemOk(Run(moves).value)
  {
    hide Go, Movable, SystemOk;
    if moves == [] {
      BootIsOk();
    } else {
      RunKeepsSystem(moves[..|moves| - 1]);
      StepKeepsSystem(Run(moves[..|moves| - 1]).value, moves[|moves| - 1]);
    }
  }

  lemma BootIsOk()
    ensures SystemOk(BOOT)
  {
    StartIsInv();
  }

  lemma {:induction false} RunKeepsLoop(moves: seq<Move>)
    requires Run(moves).Some?
    ensures CallbacksOk(Run(moves).value) && AfterEndOk(Run(moves).value)
  {
    hide Go, Movable, SystemOk, CallbacksOk, AfterEndOk;
    if moves == [] {
      BootLoopIsOk();
    } else {
      var s, m := Run(moves[..|moves| - 1]).value, moves[|moves| - 1];
      RunKeepsSystem(moves[..|moves| - 1]);
      RunKeepsLoop(moves[..|moves| - 1]);
      CallbacksStep(s, m);
      AfterEndStep(s, m);
    }
  }

  lemma BootLoopIsOk()
    ensures CallbacksOk(BOOT) && AfterEndOk(BOOT)
  {
  }

  // ---------- the theorems ----------

  ghost predicate Reached(s: System) {
    exists moves :: Run(moves) == Some(s)
  }

  lemma ReachedIsOk(s: System)
    requires Reached(s)
    ensures SystemOk(s) && CallbacksOk(s) && AfterEndOk(s)
  {
    hide Run, SystemOk, CallbacksOk, AfterEndOk;
    var moves :| Run(moves) == Some(s);
    RunKeepsSystem(moves);
    RunKeepsLoop(moves);
  }

  /**
   A settle callback reads the text at most once, and never before every complete line that was buffered when
   the prompt's response was dispatched has itself been handled.
   */
  lemma IdleOrdering(s: System, k: nat)
    requires Reached(s) && k < |s.prompts|
    ensures s.prompts[k].ran <= 1
    ensures s.prompts[k].ran == 1 ==> s.prompts[k].bound <= s.prompts[k].cut <= s.handled
    ensures s.prompts[k].stage.Settling? ==> s.prompts[k].bound <= s.handled
  {
    hide Reached, Inv, TextOf, LoopOk;
    ReachedIsOk(s);
    assert PromptOk(s, k);
  }

  /**
   `text` is the messages from the turn's start to its cut, which lies past the lines buffered at its response; the
   turn's own text goes on to its end.
   */
  ghost predicate CoversBuffered(s: System, k: nat, text: string)
    requires k < |s.core.turns| == |s.prompts|
  {
    var t, p := s.core.turns[k], s.prompts[k];
    var end := End(t, p, s.handled);
    && p.starts <= p.cut && p.bound <= p.cut <= end <= s.handled <= |s.wire|
    && text == TextOf(s.wire[p.starts..p.cut])
    && t.text == TextOf(s.wire[p.starts..end])
  }

  /**
   The output text of a completed turn is the text of the message lines from its start to some cut: a prefix of
   all that was handled while it was current, which reaches past every line buffered when its response came in,
   and is all of it when the settle ran on the read loop, or read the text after the loop had ended.
   */
  lemma OutputText(s: System, k: nat)
    requires Reached(s) && k < |s.core.turns| == |s.prompts|
    requires s.core.turns[k].winner.Some? && s.core.turns[k].winner.value.Completed?
    ensures CoversBuffered(s, k, s.core.turns[k].winner.value.text)
    ensures s.core.turns[k].winner.value.text <= s.core.turns[k].text
    ensures s.prompts[k].onLoop || s.prompts[k].afterEnd ==> s.core.turns[k].winner.value.text == s.core.turns[k].text
  {
    hide Reached, Inv, TextOf, LoopOk;
    ReachedIsOk(s);
    assert PromptOk(s, k);
    TextIsMonotone(s.wire, s.prompts[k].starts, s.prompts[k].cut, End(s.core.turns[k], s.prompts[k], s.handled));
  }

  lemma Extend(moves: seq<Move>, s: System, m: Move) returns (longer: seq<Move>, u: System)
    requires Run(moves) == Some(s) && Movable(s, m)
    ensures u == Go(s, m) && longer == moves + [m] && Run(longer) == Some(u)
  {
    longer, u := moves + [m], Go(s, m);
    assert longer[..|moves|] == moves;
  }

  const STARTED := Next(START, StartTurn("hello"))
  const ANSWERED := System(STARTED, [ResponseLine(0)], 1, Top, false, [], [Prompt(Answered, 0, 0, 1, 0, false, false, 0)])
  const READ := ANSWERED.(loop := Reading, readIdle := true, prompts := [Prompt(Snapped(""), 0, 0, 1, 1, false, false, 1)])

  lemma AnsweredIsReachable() returns (moves: seq<Move>)
    ensures Run(moves) == Some(ANSWERED)
  {
    hide Run, TurnId;
    var s := BOOT;
    moves := [];
    EmptyRun();
    moves, s := Extend(moves, s, Host(StartTurn("hello")));
    moves, s := Extend(moves, s, LookForLine);
    moves, s := Extend(moves, s, NextCallback);
    moves, s := Extend(moves, s, Fill(ResponseLine(0)));
    moves, s := Extend(moves, s, TakeLine);
    moves, s := Extend(moves, s, Wake);
    moves, s := Extend(moves, s, Dispatch);
    assert s.wire == ANSWERED.wire && s.prompts == ANSWERED.prompts && s.idleFns == ANSWERED.idleFns;
  }

  lemma EmptyRun()
    ensures Run([]) == Some(BOOT)
  {
  }

  lemma ReadIsReachable() returns (moves: seq<Move>)
    ensures Run(moves) == Some(READ)
  {
    hide Run, TurnId;
    var s := ANSWERED;
    moves := AnsweredIsReachable();
    moves, s := Extend(moves, s, LookForLine);
    moves, s := Extend(moves, s, NextCallback);
    moves, s := Extend(moves, s, GiveToIdle(0));
    moves, s := Extend(moves, s, ReadText(0));
    assert s.wire == READ.wire && s.prompts == READ.prompts && s.idleFns == READ.idleFns;
  }

  /** Off the read loop a message can be handled between the two lock sections of settle, and is then missed. */
  lemma OffLoopSettleMayMissText() returns (moves: seq<Move>)
    ensures Run(moves).Some?
    ensures var core := Run(moves).value.core;
      |core.turns| == 1 && core.current == Some(0) && core.turns[0].text == "late"
      && core.turns[0].winner == Some(Completed(TurnId(1), "", "end_turn"))
  {
    hide Run, TurnId;
    var s := READ;
    moves := ReadIsReachable();
    moves, s := Extend(moves, s, Fill(MessageLine("late")));
    moves, s := Extend(moves, s, TakeLine);
    moves, s := Extend(moves, s, Wake);
    moves, s := Extend(moves, s, Dispatch);
    moves, s := Extend(moves, s, Finish(0, "end_turn"));
    assert "" + "late" == "late";
  }
}
