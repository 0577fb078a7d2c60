/**
 The counts that a prompt's record keeps are those of the run: where the turn started, where its response was
 dispatched, where its text was read, where it was finished and detached.
 */
module TurnLog {
  import opened Options
  import opened Turns
  import opened TurnOutput
  import Decimal

  /** What a step does for one turn. */
  datatype Fact =
    | Starts(starts: nat)                               // the host starts it, after so many handled lines
    | Binds(bound: nat)                                 // the loop dispatches its response, so many lines buffered
    | Reads(cut: nat, onLoop: bool, afterEnd: bool)     // its settle reads the text
    | Snaps(text: string)                               // and this is the text
    | Finishes(result: Result)                          // its settle offers the result
    | Detaches(ends: nat)

  predicate Happens(u: System, m: Move, k: nat, f: Fact) {
    match f
    case Starts(n) => m.Host? && m.a.StartTurn? && k == |u.core.turns| && n == u.handled
    case Binds(n) =>
      && m == Dispatch && u.handled < |u.wire| && u.wire[u.handled] == ResponseLine(k) && AtStage(u, k, Requested)
      && n == |u.wire|
    case Reads(cut, onLoop, afterEnd) =>
      m == ReadText(k) && cut == u.handled && (onLoop ==> IsHead(u, k)) && (afterEnd <==> u.loop.Ended?)
    case Snaps(text) => m == ReadText(k) && k < |u.core.turns| && text == u.core.turns[k].text
    case Finishes(r) =>
      && m.Finish? && m.k == k && k < |u.core.turns| && k < |u.prompts| && u.prompts[k].stage.Snapped?
      && r == Completed("turn-" + Decimal.ToDecimal(u.core.turns[k].number), u.prompts[k].stage.text, m.stopReason)
    case Detaches(n) => m == Host(Detach(k)) && n == u.handled
  }

  // ---------- one step ----------

  predicate HasBound(p: Prompt) {
    p.ran > 0 || (!p.stage.Requested? && !p.stage.Over?)
  }

  predicate IsDone(t: Turn) {
    t.winner.Some? && t.winner.value.Completed?
  }

  lemma PromptsGrow(s: System, m: Move)
    requires SystemOk(s) && Movable(s, m)
    ensures |s.prompts| == |s.core.turns| <= |Go(s, m).prompts| == |Go(s, m).core.turns| <= |s.prompts| + 1
  {
    hide Go, Movable, Inv;
    assert Inv(s.core);
    CoreFollows(s, m);
    SizesAgree(s, m);
    if CoreStep(s, m).Some? { TurnsAfter(s.core, CoreStep(s, m).value); }
  }

  lemma PromptStep(s: System, m: Move, k: nat)
    requires SystemOk(s) && Movable(s, m) && k < |s.prompts|
    ensures k < |Go(s, m).prompts|
    ensures var p, q := s.prompts[k], Go(s, m).prompts[k];
      && q.starts == p.starts
      && (HasBound(q) ==> (HasBound(p) && q.bound == p.bound) || Happens(s, m, k, Binds(q.bound)))
      && (q.stage.Snapped? ==> q.stage == p.stage || Happens(s, m, k, Snaps(q.stage.text)))
  {
    hide Inv, Next, TurnId, Enabled, TextOk, CutOk;
    PromptsGrow(s, m);
    assert PromptOk(s, k);
  }

  lemma ReadStep(s: System, m: Move, k: nat)
    requires SystemOk(s) && Movable(s, m) && k < |s.prompts|
    ensures k < |Go(s, m).prompts|
    ensures var p, q := s.prompts[k], Go(s, m).prompts[k];
      q.ran > 0 ==>
        || (p.ran > 0 && q.cut == p.cut && q.onLoop == p.onLoop && q.afterEnd == p.afterEnd)
        || Happens(s, m, k, Reads(q.cut, q.onLoop, q.afterEnd))
  {
    hide Inv, Next, TurnId, Enabled, TextOk, CutOk;
    PromptsGrow(s, m);
    assert PromptOk(s, k);
  }

  lemma NewPrompt(s: System, m: Move, k: nat)
    requires SystemOk(s) && Movable(s, m) && |s.prompts| <= k < |Go(s, m).prompts|
    ensures var q := Go(s, m).prompts[k]; Happens(s, m, k, Starts(q.starts)) && q.stage.Requested? && q.ran == 0
  {
    hide Inv, TurnId, Enabled;
    PromptsGrow(s, m);
  }

  lemma CoreTurnStep(c: State, a: Action, k: nat)
    requires Inv(c) && Enabled(c, a) && k < |c.turns|
    ensures k < |Next(c, a).turns|
    ensures var t, u := c.turns[k], Next(c, a).turns[k];
      && (IsDone(u) ==> t.winner == u.winner || a == PromptEnds(k, u.winner.value))
      && (!Unfinished(u) ==> !Unfinished(t) || a == Detach(k))
  {
    hide Next, HistoryOf, Numbered, SingleFlight, ClosingOk, TurnId;
    TurnsAfter(c, a);
    assert TurnOk(c.turns[k]);
  }

  lemma TurnStep(s: System, m: Move, k: nat)
    requires SystemOk(s) && Movable(s, m) && k < |s.prompts|
    ensures k < |Go(s, m).prompts| == |Go(s, m).core.turns|
    ensures var t, u := s.core.turns[k], Go(s, m).core.turns[k];
      && (IsDone(u) ==> t.winner == u.winner || Happens(s, m, k, Finishes(u.winner.value)))
      && (!Unfinished(u) ==> !Unfinished(t) || m == Host(Detach(k)))
  {
    hide TextOk, CutOk, StageOk, Next, Inv, Unfinished;
    PromptsGrow(s, m);
    assert Inv(s.core);
    CoreFollows(s, m);
    if CoreStep(s, m).Some? { CoreTurnStep(s.core, CoreStep(s, m).value, k); }
  }

  lemma EndsStep(s: System, m: Move, k: nat)
    requires SystemOk(s) && Movable(s, m) && k < |s.prompts|
    ensures k < |Go(s, m).prompts|
    ensures Go(s, m).prompts[k].ends == s.prompts[k].ends || Happens(s, m, k, Detaches(Go(s, m).prompts[k].ends))
    ensures m == Host(Detach(k)) ==> Happens(s, m, k, Detaches(Go(s, m).prompts[k].ends))
  {
    hide TextOk, CutOk, StageOk, Next, Inv, TurnId;
    PromptsGrow(s, m);
  }

  lemma NewTurnIsOpen(s: System, m: Move, k: nat)
    requires SystemOk(s) && Movable(s, m) && |s.prompts| <= k < |Go(s, m).prompts|
    ensures k < |Go(s, m).core.turns| && Go(s, m).core.turns[k].winner == None && Unfinished(Go(s, m).core.turns[k])
  {
    hide TextOk, CutOk, StageOk, Next, Inv, TurnId;
    PromptsGrow(s, m);
    assert Inv(s.core);
    CoreFollows(s, m);
    if CoreStep(s, m).Some? { TurnsAfter(s.core, CoreStep(s, m).value); }
  }

  // ---------- runs ----------

  ghost predicate HappenedAt(moves: seq<Move>, i: int, u: System, k: nat, f: Fact) {
    0 <= i < |moves| && Run(moves[..i]) == Some(u) && Happens(u, moves[i], k, f)
  }

  ghost predicate Happened(moves: seq<Move>, k: nat, f: Fact) {
    exists i, u :: HappenedAt(moves, i, u, k, f)
  }

  lemma HappenedBefore(moves: seq<Move>, m: Move, k: nat, f: Fact)
    requires Happened(moves, k, f)
    ensures Happened(moves + [m], k, f)
  {
    hide Run, Happens;
    var i, u :| HappenedAt(moves, i, u, k, f);
    assert (moves + [m])[..i] == moves[..i];
    assert HappenedAt(moves + [m], i, u, k, f);
  }

  lemma HappensNow(moves: seq<Move>, u: System, m: Move, k: nat, f: Fact)
    requires Run(moves) == Some(u) && Happens(u, m, k, f)
    ensures Happened(moves + [m], k, f)
  {
    hide Run, Happens;
    assert (moves + [m])[..|moves|] == moves;
    assert HappenedAt(moves + [m], |moves|, u, k, f);
  }

  /** Every count of the record has its step in the run. */
  ghost predicate Logged(moves: seq<Move>, s: System, k: nat)
    requires k < |s.prompts| == |s.core.turns|
  {
    var t, p := s.core.turns[k], s.prompts[k];
    && Happened(moves, k, Starts(p.starts))
    && (HasBound(p) ==> Happened(moves, k, Binds(p.bound)))
    && (p.ran > 0 ==> Happened(moves, k, Reads(p.cut, p.onLoop, p.afterEnd)))
    && (p.stage.Snapped? ==> Happened(moves, k, Snaps(p.stage.text)))
    && (IsDone(t) ==> Happened(moves, k, Finishes(t.winner.value)))
    && (!Unfinished(t) ==> Happened(moves, k, Detaches(p.ends)))
  }

  lemma Carries(moves: seq<Move>, s: System, m: Move, k: nat, had: bool, f: Fact)
    requires Run(moves) == Some(s) && (had ==> Happened(moves, k, f)) && (had || Happens(s, m, k, f))
    ensures Happened(moves + [m], k, f)
  {
    hide Run, Happens, Happened;
    if had { HappenedBefore(moves, m, k, f); } else { HappensNow(moves, s, m, k, f); }
  }

  lemma StepIsLogged(moves: seq<Move>, s: System, m: Move, k: nat)
    requires Run(moves) == Some(s) && SystemOk(s) && Movable(s, m)
    requires k < |Go(s, m).prompts| == |Go(s, m).core.turns|
    requires k < |s.prompts| ==> Logged(moves, s, k)
    ensures Logged(moves + [m], Go(s, m), k)
  {
    hide Run, Go, Movable, SystemOk, Happens, Happened, HasBound, IsDone;
    var q, u := Go(s, m).prompts[k], Go(s, m).core.turns[k];
    PromptsGrow(s, m);
    if k < |s.prompts| {
      OldIsLogged(moves, s, m, k);
    } else {
      NewPrompt(s, m, k);
      NewTurnIsOpen(s, m, k);
      HappensNow(moves, s, m, k, Starts(q.starts));
      NothingYet(q, u);
    }
  }

  lemma NothingYet(p: Prompt, t: Turn)
    requires p.stage.Requested? && p.ran == 0 && t.winner == None
    ensures !HasBound(p) && !IsDone(t)
  {
  }

  lemma OldIsLogged(moves: seq<Move>, s: System, m: Move, k: nat)
    requires Run(moves) == Some(s) && SystemOk(s) && Movable(s, m) && k < |s.prompts| == |s.core.turns|
    requires k < |Go(s, m).prompts| == |Go(s, m).core.turns| && Logged(moves, s, k)
    ensures Logged(moves + [m], Go(s, m), k)
  {
    hide Run, Go, Movable, SystemOk, Happens, Happened, HasBound, IsDone, Unfinished;
    OldPromptIsLogged(moves, s, m, k);
    var t, u, q := s.core.turns[k], Go(s, m).core.turns[k], Go(s, m).prompts[k];
    TurnStep(s, m, k);
    EndsStep(s, m, k);
    if IsDone(u) {
      DoneHasWinner(u);
      if t.winner == u.winner { SameWinnerIsDone(t, u); }
      Carries(moves, s, m, k, t.winner == u.winner, Finishes(u.winner.value));
    }
    if !Unfinished(u) { Carries(moves, s, m, k, !Unfinished(t) && q.ends == s.prompts[k].ends, Detaches(q.ends)); }
  }

  lemma DoneHasWinner(t: Turn)
    requires IsDone(t)
    ensures t.winner.Some?
  {
  }

  lemma SameWinnerIsDone(t: Turn, u: Turn)
    requires t.winner == u.winner && IsDone(u)
    ensures IsDone(t)
  {
  }

  lemma OldPromptIsLogged(moves: seq<Move>, s: System, m: Move, k: nat)
    requires Run(moves) == Some(s) && SystemOk(s) && Movable(s, m) && k < |s.prompts| == |s.core.turns|
    requires k < |Go(s, m).prompts| && Logged(moves, s, k)
    ensures var q := Go(s, m).prompts[k];
      && Happened(moves + [m], k, Starts(q.starts))
      && (HasBound(q) ==> Happened(moves + [m], k, Binds(q.bound)))
      && (q.ran > 0 ==> Happened(moves + [m], k, Reads(q.cut, q.onLoop, q.afterEnd)))
      && (q.stage.Snapped? ==> Happened(moves + [m], k, Snaps(q.stage.text)))
  {
    hide Run, Go, Movable, SystemOk, Happens, Happened, HasBound, IsDone, Unfinished;
    var p, q := s.prompts[k], Go(s, m).prompts[k];
    PromptStep(s, m, k);
    ReadStep(s, m, k);
    HappenedBefore(moves, m, k, Starts(p.starts));
    if HasBound(q) { Carries(moves, s, m, k, HasBound(p) && q.bound == p.bound, Binds(q.bound)); }
    if q.ran > 0 {
      var same := p.ran > 0 && q.cut == p.cut && q.onLoop == p.onLoop && q.afterEnd == p.afterEnd;
      Carries(moves, s, m, k, same, Reads(q.cut, q.onLoop, q.afterEnd));
    }
    if q.stage.Snapped? { Carries(moves, s, m, k, q.stage == p.stage, Snaps(q.stage.text)); }
  }

  lemma {:induction false} RunIsLogged(moves: seq<Move>, k: nat)
    requires Run(moves).Some? && k < |Run(moves).value.prompts|
    ensures k < |Run(moves).value.core.turns| == |Run(moves).value.prompts| && Logged(moves, Run(moves).value, k)
    decreases |moves|
  {
    hide Go, Movable, SystemOk, Logged;
    var g, m := moves[..|moves| - 1], moves[|moves| - 1];
    assert moves == g + [m];
    var s := Run(g).value;
    RunKeepsSystem(g);
    PromptsGrow(s, m);
    if k < |s.prompts| { RunIsLogged(g, k); }
    StepIsLogged(g, s, m, k);
  }

  /**
   A completed turn's result is what the run says: under the turn's id, the text that the turn had at the step in
   which its settle read it, and the prompt's own stop reason. The lines its text covers run from those handled
   when it was started to those handled when it was read, which lie past those buffered when its response was
   dispatched; and on the loop it was read as a read-idle callback.
   */
  lemma CompletionIsOfTheRun(moves: seq<Move>, s: System, k: nat, r: Result)
    requires Run(moves) == Some(s) && k < |s.core.turns| == |s.prompts|
    requires s.core.turns[k].winner == Some(r) && r.Completed?
    ensures Happened(moves, k, Finishes(r)) && Happened(moves, k, Snaps(r.text))
    ensures var p := s.prompts[k];
      && Happened(moves, k, Starts(p.starts)) && Happened(moves, k, Binds(p.bound))
      && Happened(moves, k, Reads(p.cut, p.onLoop, p.afterEnd))
      && p.starts <= p.cut && p.bound <= p.cut <= |s.wire| && r.text == TextOf(s.wire[p.starts..p.cut])
  {
    hide Run, Happens, Happened, TextOf, TextOk, StageOk, Inv, LoopOk;
    RunIsLogged(moves, k);
    RunKeepsSystem(moves);
    assert PromptOk(s, k);
    assert Reached(s);
    OutputText(s, k);
    SnapOfFinish(moves, k, r);
  }

  lemma SnapOfFinish(moves: seq<Move>, k: nat, r: Result)
    requires Happened(moves, k, Finishes(r)) && r.Completed? && Run(moves).Some?
    ensures Happened(moves, k, Snaps(r.text))
  {
    hide Run, Logged;
    var i, u :| HappenedAt(moves, i, u, k, Finishes(r));
    RunIsLogged(moves[..i], k);
    assert Logged(moves[..i], u, k);
    SnappedIsLogged(moves[..i], u, k);
    StillHappened(moves, i, k, Snaps(r.text));
  }

  lemma SnappedIsLogged(moves: seq<Move>, s: System, k: nat)
    requires k < |s.prompts| == |s.core.turns| && Logged(moves, s, k) && s.prompts[k].stage.Snapped?
    ensures Happened(moves, k, Snaps(s.prompts[k].stage.text))
  {
  }

  lemma StillHappened(moves: seq<Move>, i: nat, k: nat, f: Fact)
    requires i <= |moves| && Happened(moves[..i], k, f)
    ensures Happened(moves, k, f)
  {
    hide Run, Happens;
    var j, u :| HappenedAt(moves[..i], j, u, k, f);
    assert moves[..i][..j] == moves[..j];
    assert HappenedAt(moves, j, u, k, f);
  }
}
