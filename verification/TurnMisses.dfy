/**
 When the settle of a turn can miss text: it reads the text and claims the completion in two lock sections, and a
 message handled between the two is in the turn's text but not in its completion.
 */
module TurnMisses {
  import opened Options
  import opened Turns
  import opened TurnOutput

  // ---------- continuations ----------

  function RunFrom(s: System, moves: seq<Move>): Option<System>
    decreases |moves|
  {
    if moves == [] then Some(s)
    else if Movable(s, moves[0]) then RunFrom(Go(s, moves[0]), moves[1..])
    else None
  }

  ghost predicate Continues(s: System, u: System) {
    exists moves :: RunFrom(s, moves) == Some(u)
  }

  lemma ContinueSelf(s: System)
    ensures Continues(s, s)
  {
    assert RunFrom(s, []) == Some(s);
  }

  lemma ContinueStep(s: System, m: Move, u: System)
    requires Movable(s, m) && Continues(Go(s, m), u)
    ensures Continues(s, u)
  {
    hide Movable, Go;
    var moves :| RunFrom(Go(s, m), moves) == Some(u);
    assert ([m] + moves)[1..] == moves;
    assert RunFrom(s, [m] + moves) == Some(u);
  }

  lemma ContinueVia(s: System, t: System, u: System)
    requires Continues(s, t) && Continues(t, u)
    ensures Continues(s, u)
  {
    var first :| RunFrom(s, first) == Some(t);
    var more :| RunFrom(t, more) == Some(u);
    MovesJoin(s, first, t, more);
  }

  lemma {:induction false} MovesJoin(s: System, first: seq<Move>, t: System, more: seq<Move>)
    requires RunFrom(s, first) == Some(t)
    ensures RunFrom(s, first + more) == RunFrom(t, more)
    decreases |first|
  {
    hide Movable, Go;
    if first == [] {
      assert first + more == more;
    } else {
      assert (first + more)[1..] == first[1..] + more;
      MovesJoin(Go(s, first[0]), first[1..], t, more);
    }
  }

  /** A settle off the loop has read `text` of a turn that nobody has claimed. */
  ghost predicate HasRead(s: System, k: nat, text: string) {
    && SystemOk(s) && CallbacksOk(s) && k < |s.prompts| && k < |s.core.turns|
    && s.prompts[k].stage == Snapped(text) && !s.prompts[k].onLoop
    && s.core.turns[k].phase.Open? && |text| <= |s.core.turns[k].text|
  }

  /** A step that leaves the prompt and the turn alone. */
  lemma ElsewhereMove(s: System, k: nat, text: string, m: Move)
    requires HasRead(s, k, text) && Movable(s, m) && k < |Go(s, m).prompts| && k < |Go(s, m).core.turns|
    requires Go(s, m).prompts[k] == s.prompts[k] && Go(s, m).core.turns[k] == s.core.turns[k]
    ensures HasRead(Go(s, m), k, text)
  {
    hide SystemOk, CallbacksOk, Go, Movable;
    StepKeepsSystem(s, m);
    CallbacksStep(s, m);
  }

  lemma QuietMove(s: System, k: nat, text: string, m: Move)
    requires HasRead(s, k, text) && Movable(s, m) && (m.TakeLine? || m.Wake? || m.Fill? || m.NextCallback?)
    ensures HasRead(Go(s, m), k, text) && Go(s, m).core == s.core
  {
    hide SystemOk, CallbacksOk;
    ElsewhereMove(s, k, text, m);
  }

  lemma LookMove(s: System, k: nat, text: string)
    requires HasRead(s, k, text) && s.loop.Top?
    ensures HasRead(Go(s, LookForLine), k, text)
    ensures if s.handled < |s.wire| then Go(s, LookForLine) == s.(loop := Reading) else Go(s, LookForLine).loop.Callbacks?
  {
    hide Inv, PromptOk, CallbacksOk;
    assert k !in s.idleFns;
    ElsewhereMove(s, k, text, LookForLine);
  }

  lemma DispatchMove(s: System, k: nat, text: string)
    requires HasRead(s, k, text) && Movable(s, Dispatch)
    ensures var u, line := Go(s, Dispatch), s.wire[s.handled];
      && HasRead(u, k, text) && u.loop == Top && u.wire == s.wire && u.handled == s.handled + 1
      && |u.core.turns[k].text| == |s.core.turns[k].text| + (if line.MessageLine? then |line.text| else 0)
  {
    hide SystemOk, CallbacksOk, Next, TurnId, Inv;
    StepKeepsSystem(s, Dispatch);
    CallbacksStep(s, Dispatch);
    var line := s.wire[s.handled];
    if line.MessageLine? { MessageTurn(s, k, line.text); }
  }

  /** The loop handles every line it has, whatever they are; the last of them is a message. */
  lemma {:induction false} HandleAll(s: System, k: nat, text: string) returns (u: System)
    requires HasRead(s, k, text) && s.loop.Reading? && s.handled < |s.wire|
    requires s.wire[|s.wire| - 1].MessageLine? && s.wire[|s.wire| - 1].text != ""
    ensures Continues(s, u) && HasRead(u, k, text) && |text| < |u.core.turns[k].text|
    decreases |s.wire| - s.handled
  {
    hide HasRead, Continues, Next;
    var taken := Go(s, TakeLine);
    QuietMove(s, k, text, TakeLine);
    var woken := Go(taken, Wake);
    QuietMove(taken, k, text, Wake);
    var done := Go(woken, Dispatch);
    DispatchMove(woken, k, text);
    if done.handled == |done.wire| {
      u := done;
      assert |text| <= |woken.core.turns[k].text| by { ReadSize(woken, k, text); }
      ContinueSelf(u);
    } else {
      LookMove(done, k, text);
      u := HandleAll(Go(done, LookForLine), k, text);
      ContinueStep(done, LookForLine, u);
    }
    ContinueStep(woken, Dispatch, u);
    ContinueStep(taken, Wake, u);
    ContinueStep(s, TakeLine, u);
  }

  lemma ReadSize(s: System, k: nat, text: string)
    requires HasRead(s, k, text)
    ensures k < |s.core.turns| && |text| <= |s.core.turns[k].text|
  {
  }

  /** The completed turn's text lacks something that was handled while it was current. */
  ghost predicate Misses(s: System, k: nat) {
    && k < |s.core.turns| && s.core.current == Some(k)
    && s.core.turns[k].winner.Some? && s.core.turns[k].winner.value.Completed?
    && |s.core.turns[k].winner.value.text| < |s.core.turns[k].text|
  }

  lemma FinishMove(s: System, k: nat, text: string)
    requires HasRead(s, k, text) && |text| < |s.core.turns[k].text|
    ensures Movable(s, Finish(k, "end_turn")) && Misses(Go(s, Finish(k, "end_turn")), k)
  {
    hide Next, TurnId, TextOf;
    assert PromptOk(s, k) && s.core.turns[k].prompting;
    PromptEndsTurn(s, k, Completed(TurnId(s.core.turns[k].number), text, "end_turn"));
    StillCurrent(s.core, k, Settled(k, text, "end_turn", s.core.turns[k]));
  }

  lemma StillCurrent(s: State, k: nat, a: Action)
    requires Inv(s) && Enabled(s, a) && a.PromptEnds? && a.k == k && k < |s.turns| && Unfinished(s.turns[k])
    ensures Next(s, a).current == Some(k)
  {
    hide TurnNext, TurnId, HistoryOf, TurnOk, Numbered, ClosingOk;
  }

  // ---------- the loop gets back to reading ----------

  /** While a turn is open, every other one has been detached. */
  lemma OthersAreDetached(s: System, k: nat, j: nat)
    requires SystemOk(s) && k < |s.core.turns| && s.core.turns[k].phase.Open? && j < |s.core.turns| && j != k
    ensures !Unfinished(s.core.turns[j]) && TurnOk(s.core.turns[j])
  {
    hide LoopOk, PromptOk, HistoryOf, Numbered, ClosingOk, CompletionOk, TimerOk;
    assert Unfinished(s.core.turns[k]);
  }

  /** How far a settle on the loop is from letting the loop go on. */
  function Left(s: System, j: nat): nat
    requires j < |s.prompts| && j < |s.core.turns|
  {
    (match s.prompts[j].stage case Settling => 2 case Snapped(_) => 1 case _ => 0) + Remaining(s.core.turns[j])
  }

  function HeadMove(s: System, j: nat): Move
    requires j < |s.prompts| && j < |s.core.turns|
  {
    match s.prompts[j].stage
    case Settling => ReadText(j)
    case Snapped(_) => Finish(j, "end_turn")
    case _ => if s.core.turns[j].phase.Detached? then Host(Send(j)) else Host(CloseChannel(j))
  }

  ghost predicate HeadWaits(s: System, k: nat, text: string, j: nat) {
    && HasRead(s, k, text) && IsHead(s, j) && OnTheLoop(s, j) && j < |s.core.turns|
    && !(s.prompts[j].stage.Over? && s.core.turns[j].phase.Finished?)
  }

  lemma ReadHead(s: System, k: nat, text: string, j: nat)
    requires HeadWaits(s, k, text, j) && s.prompts[j].stage.Settling?
    ensures Movable(s, ReadText(j)) && HasRead(Go(s, ReadText(j)), k, text)
    ensures var u := Go(s, ReadText(j)); u.loop == s.loop && OnTheLoop(u, j) && j < |u.core.turns| && Left(u, j) < Left(s, j)
  {
    hide SystemOk, CallbacksOk, Remaining;
    ElsewhereMove(s, k, text, ReadText(j));
  }

  lemma FinishHead(s: System, k: nat, text: string, j: nat)
    requires HeadWaits(s, k, text, j) && s.prompts[j].stage.Snapped?
    ensures var m := Finish(j, "end_turn"); Movable(s, m) && HasRead(Go(s, m), k, text)
    ensures var u := Go(s, Finish(j, "end_turn"));
      u.loop == s.loop && OnTheLoop(u, j) && j < |u.core.turns| && Left(u, j) < Left(s, j)
  {
    hide Inv, TextOf, TurnId, Next, CallbacksOk, LoopOk, PromptOk, TurnNext, TurnOk, HasRead;
    HeadMayFinish(s, k, text, j);
    var r := Completed(TurnId(s.core.turns[j].number), s.prompts[j].stage.text, "end_turn");
    PromptEndsTurn(s, j, r);
    LateResult(s.core.turns[j], PromptEnds(j, r));
    HeadIsAnother(s, k, text, j);
    ElsewhereMove(s, k, text, Finish(j, "end_turn"));
  }

  lemma HeadMayFinish(s: System, k: nat, text: string, j: nat)
    requires HeadWaits(s, k, text, j) && s.prompts[j].stage.Snapped?
    ensures Movable(s, Finish(j, "end_turn")) && SystemOk(s) && !Unfinished(s.core.turns[j])
  {
    hide Inv, TextOf, TurnId, CallbacksOk, LoopOk, TextOk, CutOk;
    assert PromptOk(s, j) && s.core.turns[j].prompting;
    OthersAreDetached(s, k, j);
  }

  lemma HeadIsAnother(s: System, k: nat, text: string, j: nat)
    requires HasRead(s, k, text) && OnTheLoop(s, j)
    ensures j != k && k < |s.prompts| && k < |s.core.turns|
  {
    hide SystemOk, CallbacksOk;
  }

  /** A result offered to a turn that has been detached changes only who is still prompting. */
  lemma LateResult(t: Turn, a: Action)
    requires a.PromptEnds? && !Unfinished(t)
    ensures TurnNext(t, a) == t.(prompting := false)
  {
  }

  lemma CloseHead(s: System, k: nat, text: string, j: nat)
    requires HeadWaits(s, k, text, j) && s.prompts[j].stage.Over?
    ensures var m := HeadMove(s, j); Movable(s, m) && HasRead(Go(s, m), k, text)
    ensures var u := Go(s, HeadMove(s, j)); u.loop == s.loop && OnTheLoop(u, j) && j < |u.core.turns| && Left(u, j) < Left(s, j)
  {
    hide Inv, TextOf, TurnId, Next, CallbacksOk, PromptOk, LoopOk;
    OthersAreDetached(s, k, j);
    TurnsAfter(s.core, if s.core.turns[j].phase.Detached? then Send(j) else CloseChannel(j));
    ElsewhereMove(s, k, text, HeadMove(s, j));
  }

  /** The settle at the head of the callbacks is brought to its end. */
  lemma {:induction false} ConcludeHead(s: System, k: nat, text: string, j: nat) returns (u: System)
    requires HasRead(s, k, text) && IsHead(s, j) && OnTheLoop(s, j) && j < |s.core.turns|
    ensures Continues(s, u) && HasRead(u, k, text) && u.loop == s.loop
    ensures AtStage(u, j, Over) && j < |u.core.turns| && u.core.turns[j].phase.Finished?
    decreases Left(s, j)
  {
    hide HasRead, Continues, Movable, Go, Left;
    if s.prompts[j].stage.Over? && s.core.turns[j].phase.Finished? {
      u := s;
      ContinueSelf(s);
    } else {
      if s.prompts[j].stage.Settling? {
        ReadHead(s, k, text, j);
      } else if s.prompts[j].stage.Snapped? {
        FinishHead(s, k, text, j);
      } else {
        CloseHead(s, k, text, j);
      }
      var m := HeadMove(s, j);
      u := ConcludeHead(Go(s, m), k, text, j);
      ContinueStep(s, m, u);
    }
  }

  lemma SizesOf(s: System, k: nat, text: string)
    requires HasRead(s, k, text)
    ensures |s.prompts| == |s.core.turns| && CallbacksOk(s)
  {
    hide Inv, PromptOk, LoopOk;
  }

  lemma {:induction false} DrainCallbacks(s: System, k: nat, text: string) returns (u: System)
    requires HasRead(s, k, text) && s.loop.Callbacks?
    ensures Continues(s, u) && HasRead(u, k, text) && u.loop.Reading?
    decreases |s.loop.todo|
  {
    hide HasRead, Continues, SystemOk, Next;
    SizesOf(s, k, text);
    if s.loop.todo == [] {
      u := Go(s, NextCallback);
      QuietMove(s, k, text, NextCallback);
      ContinueSelf(u);
      ContinueStep(s, NextCallback, u);
    } else {
      var done := ConcludeHead(s, k, text, s.loop.todo[0]);
      var next := Go(done, NextCallback);
      QuietMove(done, k, text, NextCallback);
      u := DrainCallbacks(next, k, text);
      ContinueStep(done, NextCallback, u);
      ContinueVia(s, done, u);
    }
  }

  lemma FromTop(s: System, k: nat, text: string) returns (u: System)
    requires HasRead(s, k, text) && s.loop.Top?
    ensures Continues(s, u) && HasRead(u, k, text) && u.loop.Reading?
  {
    hide HasRead, Continues, SystemOk, Next;
    var looked := Go(s, LookForLine);
    LookMove(s, k, text);
    if looked.loop.Reading? {
      u := looked;
      ContinueSelf(u);
    } else {
      u := DrainCallbacks(looked, k, text);
    }
    ContinueStep(s, LookForLine, u);
  }

  lemma FromDispatching(s: System, k: nat, text: string) returns (u: System)
    requires HasRead(s, k, text) && s.loop.Dispatching?
    ensures Continues(s, u) && HasRead(u, k, text) && u.loop.Reading?
  {
    hide HasRead, Continues, SystemOk, Next;
    assert s.handled < |s.wire| by { LineIsThere(s, k, text); }
    var top := Go(s, Dispatch);
    DispatchMove(s, k, text);
    u := FromTop(top, k, text);
    ContinueStep(s, Dispatch, u);
  }

  lemma LineIsThere(s: System, k: nat, text: string)
    requires HasRead(s, k, text) && s.loop.Dispatching?
    ensures s.handled < |s.wire|
  {
    hide Inv, PromptOk;
  }

  /** Unless it has ended, the loop can get to where it waits for lines. */
  lemma BackToReading(s: System, k: nat, text: string) returns (u: System)
    requires HasRead(s, k, text) && !s.loop.Ended?
    ensures Continues(s, u) && HasRead(u, k, text) && u.loop.Reading?
  {
    hide HasRead, Continues, SystemOk, Next;
    match s.loop
    case Reading =>
      u := s;
      ContinueSelf(u);
    case Top => u := FromTop(s, k, text);
    case Callbacks(_) => u := DrainCallbacks(s, k, text);
    case Dispatching => u := FromDispatching(s, k, text);
    case Got =>
      QuietMove(s, k, text, Wake);
      u := FromDispatching(Go(s, Wake), k, text);
      ContinueStep(s, Wake, u);
  }

  /** From there a further message is handled before the turn is finished. */
  lemma ReadingMisses(s: System, k: nat, text: string) returns (u: System)
    requires HasRead(s, k, text) && s.loop.Reading?
    ensures Continues(s, u) && Misses(u, k)
  {
    hide HasRead, Continues, Misses, SystemOk, Next;
    var filled := Go(s, Fill(MessageLine("late")));
    QuietMove(s, k, text, Fill(MessageLine("late")));
    assert filled.handled < |filled.wire| by { FilledIsAhead(s, k, text, filled); }
    var handled := HandleAll(filled, k, text);
    FinishMove(handled, k, text);
    u := Go(handled, Finish(k, "end_turn"));
    ContinueSelf(u);
    ContinueStep(handled, Finish(k, "end_turn"), u);
    ContinueVia(filled, handled, u);
    ContinueStep(s, Fill(MessageLine("late")), u);
  }

  /** About to read the text of an open turn, off the loop. */
  ghost predicate IsSettlingOffLoop(s: System, k: nat) {
    && AtStage(s, k, Settling) && !s.prompts[k].onLoop
    && k < |s.core.turns| && s.core.turns[k].phase.Open?
  }

  lemma SettleReads(s: System, k: nat) returns (text: string)
    requires Reached(s) && IsSettlingOffLoop(s, k)
    ensures Movable(s, ReadText(k)) && HasRead(Go(s, ReadText(k)), k, text)
    ensures Go(s, ReadText(k)).loop == s.loop
  {
    hide Reached, Inv, TextOf, SystemOk, CallbacksOk;
    ReachedIsOk(s);
    StepKeepsSystem(s, ReadText(k));
    CallbacksStep(s, ReadText(k));
    text := s.core.turns[k].text;
  }

  // ---------- after the loop has ended nothing is missed ----------

  /** The turn's text is final, and nobody but this settle completes it, with that text. */
  predicate Whole(s: System, k: nat, text: string) {
    && s.loop.Ended? && k < |s.prompts| && k < |s.core.turns| && s.core.turns[k].text == text
    && (s.prompts[k].stage.Settling? || s.prompts[k].stage == Snapped(text) || s.prompts[k].stage.Over?)
    && (s.core.turns[k].winner.Some? && s.core.turns[k].winner.value.Completed? ==> s.core.turns[k].winner.value.text == text)
  }

  lemma HostKeepsWhole(s: System, a: Action, k: nat, text: string)
    requires SystemOk(s) && Whole(s, k, text) && Movable(s, Host(a))
    ensures Whole(Go(s, Host(a)), k, text)
  {
    hide Next, TextOf, TurnNext, Inv, Enabled, PromptOk, LoopOk, Target;
    TurnsAfter(s.core, a);
    if Target(s.core, a) == Some(k) {
      TargetMayStep(s.core, a);
      if a.Detach? { DetachKeepsText(s.core.turns[k], a.k); } else { HostTurnChange(s.core.turns[k], a); }
    }
  }

  lemma DetachKeepsText(t: Turn, k: nat)
    ensures var u := TurnNext(t, Detach(k)); u.text == t.text && u.winner == t.winner
  {
  }

  lemma EndsKeepText(t: Turn, a: Action)
    requires a.PromptEnds?
    ensures TurnNext(t, a).text == t.text
    ensures TurnNext(t, a).winner == t.winner || TurnNext(t, a).winner == Some(a.result)
  {
  }

  lemma PromptKeepsWhole(s: System, m: Move, k: nat, text: string)
    requires SystemOk(s) && Whole(s, k, text) && Movable(s, m) && (m.PromptFails? || m.Finish?)
    ensures Whole(Go(s, m), k, text)
  {
    hide Next, TextOf, TurnNext, Inv, Enabled, PromptOk, LoopOk, TurnId;
    CoreFollows(s, m);
    var a := CoreStep(s, m).value;
    PromptEndsTurn(s, a.k, a.result);
    EndsKeepText(s.core.turns[a.k], a);
  }

  lemma StepKeepsWhole(s: System, m: Move, k: nat, text: string)
    requires SystemOk(s) && Whole(s, k, text) && Movable(s, m)
    ensures Whole(Go(s, m), k, text)
  {
    hide Next, TextOf, TurnNext, SystemOk, Enabled, TurnId;
    match m
    case Host(a) => HostKeepsWhole(s, a, k, text);
    case PromptFails(_, _) => PromptKeepsWhole(s, m, k, text);
    case Finish(_, _) => PromptKeepsWhole(s, m, k, text);
    case _ =>
  }

  lemma {:induction false} RunKeepsWhole(s: System, moves: seq<Move>, k: nat, text: string)
    requires SystemOk(s) && Whole(s, k, text) && RunFrom(s, moves).Some?
    ensures Whole(RunFrom(s, moves).value, k, text)
    decreases |moves|
  {
    hide SystemOk, Whole, Go, Movable;
    if moves != [] {
      StepKeepsSystem(s, moves[0]);
      StepKeepsWhole(s, moves[0], k, text);
      RunKeepsWhole(Go(s, moves[0]), moves[1..], k, text);
    }
  }

  lemma EndedMissesNothing(s: System, k: nat, u: System)
    requires Reached(s) && IsSettlingOffLoop(s, k) && s.loop.Ended? && Continues(s, u)
    ensures !Misses(u, k)
  {
    hide Reached, SystemOk, RunFrom;
    ReachedIsOk(s);
    assert s.core.turns[k].winner.None? by { OpenHasNoWinner(s, k); }
    var moves :| RunFrom(s, moves) == Some(u);
    RunKeepsWhole(s, moves, k, s.core.turns[k].text);
  }

  lemma OpenHasNoWinner(s: System, k: nat)
    requires SystemOk(s) && k < |s.core.turns| && s.core.turns[k].phase.Open?
    ensures s.core.turns[k].winner.None?
  {
    hide PromptOk, LoopOk;
    TurnsAreOk(s.core);
  }

  /**
   Off the read loop, a settle about to read the text of an open turn may miss some exactly as long as the loop has
   not ended: wherever else the loop is, some continuation handles a message between the settle's two lock sections;
   after its end none does.
   */
  lemma OffLoopSettleMissesExactly(s: System, k: nat)
    requires Reached(s) && IsSettlingOffLoop(s, k)
    ensures (exists u :: Continues(s, u) && Misses(u, k)) <==> !s.loop.Ended?
  {
    hide Reached, Continues, Misses, HasRead, IsSettlingOffLoop, Go, Movable;
    if s.loop.Ended? {
      forall u | Continues(s, u) ensures !Misses(u, k) { EndedMissesNothing(s, k, u); }
    } else {
      var text := SettleReads(s, k);
      var read := Go(s, ReadText(k));
      var reading := BackToReading(read, k, text);
      var u := ReadingMisses(reading, k, text);
      ContinueVia(read, reading, u);
      ContinueStep(s, ReadText(k), u);
    }
  }

  lemma FilledIsAhead(s: System, k: nat, text: string, u: System)
    requires HasRead(s, k, text) && |u.wire| == |s.wire| + 1 && u.handled == s.handled
    ensures u.handled < |u.wire|
  {
    hide PromptOk, Inv;
  }
}
