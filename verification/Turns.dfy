/**
 The turn lifecycle of the session driver as a step machine. Every critical section, channel operation and
 finishOnce claim is one step; a run is any sequence of enabled steps, so it covers all interleavings of the
 prompt goroutine, the cancel timer, Close or Delete, the read loop and the consumer.
 */
module Turns {
  import opened Options
  import Decimal

  datatype Status = Ready | Running | Closed

  datatype Failure = PromptError(message: string) | SessionClosed(op: string) | TurnCancelled

  datatype Result = Completed(turnId: string, text: string, stopReason: string) | Failed(failure: Failure)

  /** Where a turn is: claimed once finishOnce has a winner, detached after the winner's lock section. */
  datatype Phase = Open | Claimed | Detached | Sent | Finished

  /** The completion channel, of capacity one: what is in it, what was taken from it, how often it was closed. */
  datatype Completion = Completion(queue: seq<Result>, taken: seq<Result>, closes: nat)

  datatype Turn = Turn(
    number: nat, prompt: string, text: string, prompting: bool, phase: Phase, winner: Option<Result>,
    cancelTimer: bool, armed: nat, fired: nat, completion: Completion)

  datatype EntryKind = UserMessage | AssistantMessage

  datatype ThreadEntry = ThreadEntry(id: string, kind: EntryKind, text: string)

  /** `closing` is the turn that the one effective beginClose handed to its caller. */
  datatype State = State(
    status: Status, current: Option<nat>, turnSeq: nat, turns: seq<Turn>, thread: seq<ThreadEntry>, closing: Option<nat>)

  const START := State(Ready, None, 0, [], [], None)

  function NewTurn(number: nat, prompt: string): Turn {
    Turn(number, prompt, "", true, Open, None, false, 0, 0, Completion([], [], 0))
  }

  function TurnId(number: nat): string {
    "turn-" + Decimal.ToDecimal(number)
  }

  function UserEntry(t: Turn): ThreadEntry {
    ThreadEntry(TurnId(t.number) + "-user", UserMessage, t.prompt)
  }

  function AssistantEntry(t: Turn, text: string): ThreadEntry {
    ThreadEntry(TurnId(t.number) + "-assistant", AssistantMessage, text)
  }

  datatype Action =
    | StartTurn(prompt: string)
    | Message(text: string)                  // an update that carries message text
    | PromptEnds(k: nat, result: Result)     // runPrompt, or its settle callback, calls finishTurn
    | CancelTurn(id: string)
    | TimerFires(k: nat)                     // possible even after Stop, which may come too late
    | BeginClose
    | CloseFinishes(k: nat, op: string)      // finishInFlightTurn
    | Detach(k: nat)                         // the lock section of the winner
    | Send(k: nat)
    | CloseChannel(k: nat)
    | Take(k: nat)                           // the consumer
    | Permission(attributed: bool)           // recordPermission

  predicate IsPromptResult(t: Turn, r: Result) {
    match r
    case Completed(turnId, _, _) => turnId == TurnId(t.number)
    case Failed(failure) => failure.PromptError?
  }

  predicate Enabled(s: State, a: Action) {
    match a
    case PromptEnds(k, r) => k < |s.turns| && s.turns[k].prompting && IsPromptResult(s.turns[k], r)
    case TimerFires(k) => k < |s.turns| && s.turns[k].fired < s.turns[k].armed
    case CloseFinishes(k, _) => k < |s.turns| && s.closing == Some(k)
    case Detach(k) => k < |s.turns| && s.turns[k].phase.Claimed?
    case Send(k) => k < |s.turns| && s.turns[k].phase.Detached?
    case CloseChannel(k) => k < |s.turns| && s.turns[k].phase.Sent?
    case Take(k) => k < |s.turns| && s.turns[k].completion.queue != []
    case _ => true
  }

  /** finishOnce.Do: the first result wins, later ones are dropped. */
  function Offer(t: Turn, r: Result): Turn {
    if t.phase.Open? then t.(phase := Claimed, winner := Some(r)) else t
  }

  /** A non-blocking send on a channel of capacity one. */
  function Push(c: Completion, r: Result): Completion {
    if |c.queue| < 1 then c.(queue := c.queue + [r]) else c
  }

  function TurnNext(t: Turn, a: Action): Turn {
    match a
    case Message(text) => t.(text := t.text + text)
    case PromptEnds(_, r) => Offer(t, r).(prompting := false)
    case CancelTurn(_) => if t.cancelTimer then t else t.(cancelTimer := true, armed := t.armed + 1)
    case TimerFires(_) => Offer(t, Failed(TurnCancelled)).(fired := t.fired + 1)
    case CloseFinishes(_, op) => Offer(t, Failed(SessionClosed(op)))
    case Detach(_) => t.(phase := Detached, cancelTimer := false)
    case Send(_) => t.(phase := Sent, completion := if t.winner.Some? then Push(t.completion, t.winner.value) else t.completion)
    case CloseChannel(_) => t.(phase := Finished, completion := t.completion.(closes := t.completion.closes + 1))
    case Take(_) =>
      var c := t.completion;
      if c.queue == [] then t else t.(completion := c.(queue := c.queue[1..], taken := c.taken + [c.queue[0]]))
    case _ => t
  }

  /** The turn a step is about, if there is one. */
  function Target(s: State, a: Action): Option<nat> {
    match a
    case Message(_) => s.current
    case CancelTurn(id) =>
      if s.current.Some? && s.current.value < |s.turns| && TurnId(s.turns[s.current.value].number) == id then s.current
      else None
    case PromptEnds(k, _) => Some(k)
    case TimerFires(k) => Some(k)
    case CloseFinishes(k, _) => Some(k)
    case Detach(k) => Some(k)
    case Send(k) => Some(k)
    case CloseChannel(k) => Some(k)
    case Take(k) => Some(k)
    case _ => None
  }

  function Answers(t: Turn): seq<ThreadEntry> {
    if t.winner.Some? && t.winner.value.Completed? then [AssistantEntry(t, t.winner.value.text)] else []
  }

  function OnTurn(s: State, a: Action): State {
    var k := Target(s, a);
    if k.Some? && k.value < |s.turns| then s.(turns := s.turns[k.value := TurnNext(s.turns[k.value], a)]) else s
  }

  function Next(s: State, a: Action): State
    requires Enabled(s, a)
  {
    match a
    case StartTurn(prompt) =>
      if s.status.Closed? || s.current.Some? then s
      else
        var t := NewTurn(s.turnSeq + 1, prompt);
        s.(turnSeq := s.turnSeq + 1, current := Some(|s.turns|), status := Running, turns := s.turns + [t],
           thread := s.thread + [UserEntry(t)])
    case BeginClose => if s.status.Closed? then s else s.(status := Closed, closing := s.current)
    case CloseFinishes(_, _) => OnTurn(s, a).(closing := None)
    case Detach(k) =>
      var u := OnTurn(s, a).(thread := s.thread + Answers(s.turns[k]));
      if s.current == Some(k) then u.(current := None, status := if s.status.Closed? then Closed else Ready) else u
    case Permission(attributed) => if attributed then s else s.(turnSeq := s.turnSeq + 1)
    case _ => OnTurn(s, a)
  }

  // ---------- the invariant ----------

  predicate Unfinished(t: Turn) {
    t.phase.Open? || t.phase.Claimed?
  }

  predicate CompletionOk(t: Turn) {
    && (t.phase.Open? <==> t.winner.None?)
    && (t.winner.Some? && t.winner.value.Completed? ==> t.winner.value.turnId == TurnId(t.number))
    && t.completion.closes == (if t.phase.Finished? then 1 else 0)
    && t.completion.taken + t.completion.queue ==
       (if t.winner.Some? && (t.phase.Sent? || t.phase.Finished?) then [t.winner.value] else [])
  }

  predicate TimerOk(t: Turn) {
    && t.fired <= t.armed <= 1
    && (Unfinished(t) ==> (t.cancelTimer <==> t.armed == 1))
    && (!Unfinished(t) ==> !t.cancelTimer)
  }

  predicate TurnOk(t: Turn) {
    t.number > 0 && CompletionOk(t) && TimerOk(t)
  }

  /** What a turn has contributed to the thread. */
  function EntriesOf(t: Turn): seq<ThreadEntry> {
    [UserEntry(t)] + (if Unfinished(t) then [] else Answers(t))
  }

  function HistoryOf(turns: seq<Turn>): seq<ThreadEntry> {
    if turns == [] then [] else HistoryOf(turns[..|turns| - 1]) + EntriesOf(turns[|turns| - 1])
  }

  predicate Numbered(s: State) {
    && (forall k | 0 <= k < |s.turns| :: s.turns[k].number <= s.turnSeq)
    && (forall i, j | 0 <= i < j < |s.turns| :: s.turns[i].number < s.turns[j].number)
  }

  predicate SingleFlight(s: State) {
    && (s.current.Some? ==> s.current.value == |s.turns| - 1 && Unfinished(s.turns[s.current.value]))
    && (forall k | 0 <= k < |s.turns| && Unfinished(s.turns[k]) :: s.current == Some(k))
    && (s.status.Running? <==> s.current.Some? && !s.status.Closed?)
  }

  predicate ClosingOk(s: State) {
    && (s.closing.Some? ==> s.status.Closed? && s.closing.value < |s.turns|)
    && (s.status.Closed? && s.current.Some? && s.current.value < |s.turns| && s.turns[s.current.value].phase.Open? ==>
          s.closing == s.current)
  }

  predicate Inv(s: State) {
    && (forall k | 0 <= k < |s.turns| :: TurnOk(s.turns[k]))
    && Numbered(s)
    && SingleFlight(s)
    && ClosingOk(s)
    && s.thread == HistoryOf(s.turns)
  }

  lemma TurnKeepsOk(t: Turn, a: Action)
    requires TurnOk(t)
    requires a.PromptEnds? ==> IsPromptResult(t, a.result)
    requires a.TimerFires? ==> t.fired < t.armed
    requires a.Detach? ==> t.phase.Claimed?
    requires a.Send? ==> t.phase.Detached?
    requires a.CloseChannel? ==> t.phase.Sent?
    requires a.CancelTurn? ==> Unfinished(t)
    ensures var u := TurnNext(t, a); TurnOk(u) && u.number == t.number && u.prompt == t.prompt
    ensures a.Detach? || (Unfinished(TurnNext(t, a)) <==> Unfinished(t))
    ensures t.winner.Some? ==> TurnNext(t, a).winner == t.winner
  {
    hide TurnId;
    if a.Take? && t.completion.queue != [] {
      var c := t.completion;
      assert c.taken + c.queue == (c.taken + [c.queue[0]]) + c.queue[1..];
    }
  }

  lemma TargetMayStep(s: State, a: Action)
    requires Inv(s) && Enabled(s, a) && Target(s, a).Some?
    ensures Target(s, a).value < |s.turns|
    ensures var t := s.turns[Target(s, a).value];
      && TurnOk(t)
      && (a.PromptEnds? ==> IsPromptResult(t, a.result))
      && (a.TimerFires? ==> t.fired < t.armed)
      && (a.Detach? ==> t.phase.Claimed?)
      && (a.Send? ==> t.phase.Detached?)
      && (a.CloseChannel? ==> t.phase.Sent?)
      && (a.CancelTurn? ==> Unfinished(t))
  {
    hide TurnOk, HistoryOf, TurnId;
  }

  /** What a step does to the turns: one of them steps, or a new one comes, or nothing changes. */
  lemma TurnsAfter(s: State, a: Action)
    requires Inv(s) && Enabled(s, a)
    ensures var t, k := Next(s, a), Target(s, a);
      if k.Some? then k.value < |s.turns| && t.turns == s.turns[k.value := TurnNext(s.turns[k.value], a)]
      else if a.StartTurn? && !s.status.Closed? && s.current.None? then
        t.turns == s.turns + [NewTurn(s.turnSeq + 1, a.prompt)]
      else t.turns == s.turns
  {
    hide TurnOk, HistoryOf, TurnNext, TurnId;
    if Target(s, a).Some? { TargetMayStep(s, a); }
  }

  lemma TurnsStayOk(s: State, a: Action, k: nat)
    requires Inv(s) && Enabled(s, a) && k < |Next(s, a).turns|
    ensures TurnOk(Next(s, a).turns[k])
    ensures k < |s.turns| ==> Next(s, a).turns[k].number == s.turns[k].number
    ensures k >= |s.turns| ==> k == |s.turns| && Next(s, a).turns[k].number == s.turnSeq + 1 == Next(s, a).turnSeq
  {
    hide HistoryOf, TurnNext, TurnId, Next, Inv, TurnOk;
    TurnsAreOk(s);
    TurnsAfter(s, a);
    TurnSeqAfter(s, a);
    if Target(s, a).Some? {
      TargetMayStep(s, a);
      TurnKeepsOk(s.turns[Target(s, a).value], a);
    } else if k == |s.turns| {
      NewTurnIsOk(s.turnSeq + 1, a.prompt);
    }
  }

  lemma NewTurnIsOk(number: nat, prompt: string)
    requires number > 0
    ensures TurnOk(NewTurn(number, prompt))
  {
  }

  lemma NumberedStep(s: State, a: Action)
    requires Inv(s) && Enabled(s, a)
    ensures Numbered(Next(s, a))
  {
    hide Next, Inv, TurnOk, Enabled;
    TurnsAreOk(s);
    TurnSeqAfter(s, a);
    var t := Next(s, a);
    forall k | 0 <= k < |t.turns|
      ensures t.turns[k].number <= t.turnSeq
      ensures k < |s.turns| ==> t.turns[k].number == s.turns[k].number
      ensures k >= |s.turns| ==> k == |s.turns| && t.turns[k].number == s.turnSeq + 1
    {
      TurnsStayOk(s, a, k);
    }
  }

  lemma TurnsAreOk(s: State)
    requires Inv(s)
    ensures Numbered(s) && SingleFlight(s) && ClosingOk(s) && s.thread == HistoryOf(s.turns)
    ensures forall k | 0 <= k < |s.turns| :: TurnOk(s.turns[k])
  {
  }

  lemma TurnSeqAfter(s: State, a: Action)
    requires Enabled(s, a)
    ensures Next(s, a).turnSeq >= s.turnSeq
    ensures a.StartTurn? && !s.status.Closed? && s.current.None? ==> Next(s, a).turnSeq == s.turnSeq + 1
  {
    hide TurnId, TurnNext;
  }

  lemma SingleFlightStep(s: State, a: Action)
    requires Inv(s) && Enabled(s, a)
    ensures SingleFlight(Next(s, a)) && ClosingOk(Next(s, a))
  {
    hide HistoryOf, TurnNext, TurnId, TurnOk, Numbered;
    TurnsAfter(s, a);
    if Target(s, a).Some? {
      TargetMayStep(s, a);
      var t := s.turns[Target(s, a).value];
      TurnKeepsOk(t, a);
      ClaimedStays(t, a);
    }
  }

  lemma ClaimedStays(t: Turn, a: Action)
    ensures !t.phase.Open? ==> !TurnNext(t, a).phase.Open?
    ensures a.CloseFinishes? ==> !TurnNext(t, a).phase.Open?
    ensures a.Detach? ==> !Unfinished(TurnNext(t, a))
  {
  }

  // ---------- the thread ----------

  lemma {:induction false} HistoryUpdate(turns: seq<Turn>, k: nat, u: Turn)
    requires k < |turns| && EntriesOf(u) == EntriesOf(turns[k])
    ensures HistoryOf(turns[k := u]) == HistoryOf(turns)
  {
    hide EntriesOf;
    var n := |turns| - 1;
    if k == n {
      assert turns[k := u][..n] == turns[..n];
    } else {
      assert turns[k := u][..n] == turns[..n][k := u];
      HistoryUpdate(turns[..n], k, u);
    }
  }

  lemma HistoryPush(turns: seq<Turn>, t: Turn)
    ensures HistoryOf(turns + [t]) == HistoryOf(turns) + EntriesOf(t)
  {
    assert (turns + [t])[..|turns|] == turns;
  }

  lemma HistoryLast(turns: seq<Turn>, u: Turn)
    requires turns != []
    ensures HistoryOf(turns[|turns| - 1 := u]) == HistoryOf(turns[..|turns| - 1]) + EntriesOf(u)
  {
    assert turns[|turns| - 1 := u][..|turns| - 1] == turns[..|turns| - 1];
  }

  lemma SameEntries(t: Turn, a: Action)
    requires TurnOk(t) && TurnOk(TurnNext(t, a)) && !a.Detach?
    requires TurnNext(t, a).number == t.number && TurnNext(t, a).prompt == t.prompt
    requires Unfinished(TurnNext(t, a)) <==> Unfinished(t)
    requires t.winner.Some? ==> TurnNext(t, a).winner == t.winner
    ensures EntriesOf(TurnNext(t, a)) == EntriesOf(t)
  {
    hide TurnId, TurnNext;
  }

  lemma HistoryStep(s: State, a: Action)
    requires Inv(s) && Enabled(s, a) && Target(s, a).Some? && !a.Detach?
    ensures HistoryOf(Next(s, a).turns) == HistoryOf(s.turns)
  {
    hide HistoryOf, TurnNext, TurnId, TurnOk, EntriesOf, Next, Inv;
    TurnsAfter(s, a);
    TargetMayStep(s, a);
    var k := Target(s, a).value;
    TurnKeepsOk(s.turns[k], a);
    SameEntries(s.turns[k], a);
    HistoryUpdate(s.turns, k, TurnNext(s.turns[k], a));
  }

  lemma DetachEntries(t: Turn, k: nat)
    requires t.phase.Claimed?
    ensures EntriesOf(TurnNext(t, Detach(k))) == EntriesOf(t) + Answers(t)
  {
    hide TurnId;
  }

  lemma HistoryDetach(s: State, k: nat)
    requires Inv(s) && Enabled(s, Detach(k))
    ensures HistoryOf(Next(s, Detach(k)).turns) == HistoryOf(s.turns) + Answers(s.turns[k])
  {
    hide HistoryOf, TurnNext, TurnId, TurnOk, EntriesOf, Answers, Next;
    TurnsAfter(s, Detach(k));
    assert k == |s.turns| - 1;
    DetachEntries(s.turns[k], k);
    HistoryLast(s.turns, TurnNext(s.turns[k], Detach(k)));
    HistoryLast(s.turns, s.turns[k]);
    assert s.turns[k := s.turns[k]] == s.turns;
  }

  lemma ThreadAfter(s: State, a: Action)
    requires Enabled(s, a)
    ensures Next(s, a).thread ==
      if a.StartTurn? && !s.status.Closed? && s.current.None? then s.thread + [UserEntry(NewTurn(s.turnSeq + 1, a.prompt))]
      else if a.Detach? then s.thread + Answers(s.turns[a.k])
      else s.thread
  {
    hide TurnNext, TurnId;
  }

  lemma ThreadStep(s: State, a: Action)
    requires Inv(s) && Enabled(s, a)
    ensures Next(s, a).thread == HistoryOf(Next(s, a).turns)
  {
    hide HistoryOf, TurnNext, TurnId, TurnOk, Next, Inv, Answers;
    TurnsAreOk(s);
    ThreadAfter(s, a);
    TurnsAfter(s, a);
    if a.Detach? {
      HistoryDetach(s, a.k);
    } else if Target(s, a).Some? {
      HistoryStep(s, a);
    } else if a.StartTurn? {
      HistoryPush(s.turns, NewTurn(s.turnSeq + 1, a.prompt));
    }
  }

  lemma StepKeepsInv(s: State, a: Action)
    requires Inv(s) && Enabled(s, a)
    ensures Inv(Next(s, a))
  {
    hide HistoryOf, TurnNext, TurnId, TurnOk, Next, Numbered, SingleFlight, ClosingOk;
    forall k | 0 <= k < |Next(s, a).turns| ensures TurnOk(Next(s, a).turns[k]) { TurnsStayOk(s, a, k); }
    NumberedStep(s, a);
    SingleFlightStep(s, a);
    ThreadStep(s, a);
  }

  // ---------- runs ----------

  /** The state after a sequence of steps, if each was enabled when it was taken. */
  function Play(run: seq<Action>): Option<State> {
    if run == [] then Some(START)
    else
      var before := Play(run[..|run| - 1]);
      if before.None? || !Enabled(before.value, run[|run| - 1]) then None
      else Some(Next(before.value, run[|run| - 1]))
  }

  lemma {:induction false} RunKeepsInv(run: seq<Action>)
    requires Play(run).Some?
    ensures Inv(Play(run).value)
  {
    hide Inv, Next, Enabled;
    if run == [] {
      StartIsInv();
    } else {
      RunKeepsInv(run[..|run| - 1]);
      StepKeepsInv(Play(run[..|run| - 1]).value, run[|run| - 1]);
    }
  }

  lemma StartIsInv()
    ensures Inv(START)
  {
  }

  ghost predicate Reachable(s: State) {
    exists run :: Play(run) == Some(s)
  }

  lemma ReachableInv(s: State)
    requires Reachable(s)
    ensures Inv(s)
  {
    hide Play, Inv;
    var run :| Play(run) == Some(s);
    RunKeepsInv(run);
  }

  /** At most one turn is unfinished, and the status says exactly whether one is current on an open driver. */
  lemma AtMostOneUnfinished(s: State)
    requires Reachable(s)
    ensures forall i, j | 0 <= i < j < |s.turns| :: !Unfinished(s.turns[i]) || !Unfinished(s.turns[j])
    ensures forall k | 0 <= k < |s.turns| :: Unfinished(s.turns[k]) <==> s.current == Some(k)
    ensures s.status.Running? <==> s.current.Some? && !s.status.Closed?
    ensures s.status.Ready? <==> s.current.None? && !s.status.Closed?
  {
    hide Reachable, HistoryOf, TurnOk, Numbered, ClosingOk;
    ReachableInv(s);
  }

  lemma PlayAppend(run: seq<Action>, a: Action)
    ensures Play(run + [a]) ==
      if Play(run).None? || !Enabled(Play(run).value, a) then None else Some(Next(Play(run).value, a))
  {
    assert (run + [a])[..|run|] == run;
  }

  /** Closed is absorbing: no later run reopens the driver or starts a turn. */
  lemma {:induction false} ClosedIsAbsorbing(run: seq<Action>, more: seq<Action>)
    requires Play(run).Some? && Play(run).value.status.Closed? && Play(run + more).Some?
    ensures var t := Play(run + more).value; t.status.Closed? && |t.turns| == |Play(run).value.turns|
    decreases |more|
  {
    hide TurnId, TurnNext;
    if more == [] {
      assert run + more == run;
    } else {
      var less := more[..|more| - 1];
      assert run + more == (run + less) + [more[|more| - 1]];
      PlayAppend(run + less, more[|more| - 1]);
      ClosedIsAbsorbing(run, less);
    }
  }

  /** The result a step offers to a turn through finishTurn. */
  function OfferedBy(a: Action, k: nat): Option<Result> {
    match a
    case PromptEnds(j, r) => if j == k then Some(r) else None
    case TimerFires(j) => if j == k then Some(Failed(TurnCancelled)) else None
    case CloseFinishes(j, op) => if j == k then Some(Failed(SessionClosed(op))) else None
    case _ => None
  }

  function FirstOffer(run: seq<Action>, k: nat): Option<Result> {
    if run == [] then None
    else
      var earlier := FirstOffer(run[..|run| - 1], k);
      if earlier.Some? then earlier else OfferedBy(run[|run| - 1], k)
  }

  lemma WinnerStep(s: State, a: Action, k: nat)
    requires Inv(s) && Enabled(s, a) && k < |Next(s, a).turns|
    ensures k < |s.turns| ==>
      Next(s, a).turns[k].winner == if s.turns[k].winner.Some? then s.turns[k].winner else OfferedBy(a, k)
    ensures k >= |s.turns| ==> Next(s, a).turns[k].winner == None && OfferedBy(a, k) == None && k == |s.turns|
  {
    hide TurnId, HistoryOf, Numbered, SingleFlight, ClosingOk, Next;
    TurnsAfter(s, a);
  }

  lemma {:induction false} NoOfferBefore(run: seq<Action>, k: nat)
    requires Play(run).Some? && k >= |Play(run).value.turns|
    ensures FirstOffer(run, k) == None
  {
    hide Next, Inv;
    if run != [] {
      var s, a := Play(run[..|run| - 1]).value, run[|run| - 1];
      RunKeepsInv(run[..|run| - 1]);
      TurnsAfter(s, a);
      NoOfferBefore(run[..|run| - 1], k);
    }
  }

  /** Whoever calls finishTurn first decides the turn: its winner is the first result offered in the run. */
  lemma {:induction false} WinnerIsFirstOffer(run: seq<Action>, k: nat)
    requires Play(run).Some? && k < |Play(run).value.turns|
    ensures Play(run).value.turns[k].winner == FirstOffer(run, k)
  {
    hide Next, Inv, Enabled;
    if run != [] {
      var g := run[..|run| - 1];
      RunKeepsInv(g);
      WinnerStep(Play(g).value, run[|run| - 1], k);
      if k < |Play(g).value.turns| { WinnerIsFirstOffer(g, k); } else { NoOfferBefore(g, k); }
    }
  }

  /** A step that calls finishTurn for turn `k`. */
  predicate EndsTurn(a: Action, k: nat) {
    (a.PromptEnds? || a.TimerFires? || a.CloseFinishes?) && a.k == k
  }

  predicate Causes(a: Action, k: nat, r: Result) {
    || a == PromptEnds(k, r)
    || (a == TimerFires(k) && r == Failed(TurnCancelled))
    || (a.CloseFinishes? && a.k == k && r == Failed(SessionClosed(a.op)))
  }

  ghost predicate EndsTurnFirst(run: seq<Action>, k: nat, i: int) {
    0 <= i < |run| && EndsTurn(run[i], k) && forall j | 0 <= j < i :: !EndsTurn(run[j], k)
  }

  lemma {:induction false} FirstOfferIsFirst(run: seq<Action>, k: nat)
    ensures FirstOffer(run, k).None? ==> forall j | 0 <= j < |run| :: !EndsTurn(run[j], k)
    ensures FirstOffer(run, k).Some? ==> exists i :: EndsTurnFirst(run, k, i) && FirstOffer(run, k) == OfferedBy(run[i], k)
  {
    if run != [] {
      var some, last := run[..|run| - 1], run[|run| - 1];
      assert forall j | 0 <= j < |some| :: run[j] == some[j];
      FirstOfferIsFirst(some, k);
      if i :| EndsTurnFirst(some, k, i) && FirstOffer(some, k) == OfferedBy(some[i], k) {
        assert EndsTurnFirst(run, k, i);
      } else if EndsTurn(last, k) {
        assert EndsTurnFirst(run, k, |some|);
      }
    }
  }

  /**
   Why a turn ended as it did: the first prompt end, timer or close in the run decides, with the prompt's own result,
   a cancellation, or the failure that names the closing operation.
   */
  lemma WinnerHasItsCause(run: seq<Action>, k: nat)
    requires Play(run).Some? && k < |Play(run).value.turns|
    ensures var winner := Play(run).value.turns[k].winner;
      && (winner.None? ==> forall j | 0 <= j < |run| :: !EndsTurn(run[j], k))
      && (winner.Some? ==> exists i :: EndsTurnFirst(run, k, i) && Causes(run[i], k, winner.value))
  {
    hide Play, FirstOffer, EndsTurn;
    WinnerIsFirstOffer(run, k);
    FirstOfferIsFirst(run, k);
    if i :| EndsTurnFirst(run, k, i) && FirstOffer(run, k) == OfferedBy(run[i], k) { OfferIsCaused(run[i], k); }
  }

  lemma OfferIsCaused(a: Action, k: nat)
    requires OfferedBy(a, k).Some?
    ensures Causes(a, k, OfferedBy(a, k).value)
  {
  }

  /**
   The completion of a turn: nothing before the winner is sent, then exactly the first offered result, once,
   whether or not the consumer has taken it; the channel is closed exactly once, at the end.
   */
  lemma CompletionCarriesOneResult(run: seq<Action>, k: nat)
    requires Play(run).Some? && k < |Play(run).value.turns|
    ensures var t := Play(run).value.turns[k];
      && t.completion.closes == (if t.phase.Finished? then 1 else 0)
      && (t.phase.Sent? || t.phase.Finished? ==>
            FirstOffer(run, k).Some? && t.completion.taken + t.completion.queue == [FirstOffer(run, k).value])
      && (!t.phase.Sent? && !t.phase.Finished? ==> t.completion.taken + t.completion.queue == [])
      && t.armed <= 1
  {
    hide Play, FirstOffer, HistoryOf, TurnId;
    RunKeepsInv(run);
    WinnerIsFirstOffer(run, k);
    assert TurnOk(Play(run).value.turns[k]);
  }

  /** How far a turn is from having its completion delivered and closed. */
  function Remaining(t: Turn): nat {
    match t.phase
    case Open => 4
    case Claimed => 3
    case Detached => 2
    case Sent => 1
    case Finished => 0
  }

  function Finisher(s: State, k: nat): Action
    requires k < |s.turns|
  {
    match s.turns[k].phase
    case Open => CloseFinishes(k, "session.close")
    case Claimed => Detach(k)
    case Detached => Send(k)
    case Sent => CloseChannel(k)
    case Finished => Take(k)
  }

  predicate Finishes(s: State, k: nat)
    requires k < |s.turns|
  {
    && Enabled(s, Finisher(s, k))
    && k < |Next(s, Finisher(s, k)).turns|
    && Remaining(Next(s, Finisher(s, k)).turns[k]) < Remaining(s.turns[k])
  }

  lemma FinisherWorks(s: State, k: nat)
    requires Inv(s) && k < |s.turns| && !s.turns[k].phase.Finished?
    requires s.status.Closed? || !s.turns[k].phase.Open?
    ensures Finishes(s, k)
  {
    hide HistoryOf, TurnId, Numbered, Next, Answers;
    assert s.turns[k].phase.Open? ==> Unfinished(s.turns[k]) && s.closing == Some(k);
    var a := Finisher(s, k);
    TurnsAfter(s, a);
    assert Target(s, a) == Some(k);
  }

  /**
   No consumer is left hanging: once a turn has a winner, or the driver is closed, some step that needs nobody
   else is enabled and brings the turn closer to its closed completion; and no step takes it further away.
   */
  lemma FinishingNeverStalls(s: State, k: nat, any: Action)
    requires Reachable(s) && k < |s.turns| && Enabled(s, any)
    ensures !s.turns[k].phase.Finished? && (s.status.Closed? || !s.turns[k].phase.Open?) ==> Finishes(s, k)
    ensures k < |Next(s, any).turns| && Remaining(Next(s, any).turns[k]) <= Remaining(s.turns[k])
  {
    hide Reachable, Inv, Finishes, Next, Enabled, Remaining;
    ReachableInv(s);
    RemainingStep(s, any, k);
    if !s.turns[k].phase.Finished? && (s.status.Closed? || !s.turns[k].phase.Open?) { FinisherWorks(s, k); }
  }

  lemma RemainingShrinks(t: Turn, a: Action)
    requires a.Detach? ==> t.phase.Claimed?
    requires a.Send? ==> t.phase.Detached?
    requires a.CloseChannel? ==> t.phase.Sent?
    ensures Remaining(TurnNext(t, a)) <= Remaining(t)
  {
    hide TurnId;
  }

  lemma RemainingStep(s: State, a: Action, k: nat)
    requires Inv(s) && Enabled(s, a) && k < |s.turns|
    ensures k < |Next(s, a).turns| && Remaining(Next(s, a).turns[k]) <= Remaining(s.turns[k])
  {
    hide Next, Inv, TurnId, TurnNext, Remaining, Target, Enabled, TurnOk;
    TurnsAfter(s, a);
    if Target(s, a).Some? {
      TargetMayStep(s, a);
      RemainingShrinks(s.turns[Target(s, a).value], a);
    }
  }
}
