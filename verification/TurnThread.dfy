/** The full thread history of a driver: a dialogue of user entries, each answered at once or not at all. */
module TurnThread {
  import opened Options
  import opened Turns
  import Decimal

  function Suffix(kind: EntryKind): string {
    if kind.UserMessage? then "-user" else "-assistant"
  }

  /** `numbers` gives the turn of each entry. */
  ghost predicate IsDialogue(thread: seq<ThreadEntry>, numbers: seq<nat>) {
    && |thread| == |numbers|
    && (forall i | 0 <= i < |thread| :: thread[i].id == TurnId(numbers[i]) + Suffix(thread[i].kind))
    && (thread != [] ==> thread[0].kind.UserMessage?)
    && (forall i | 0 < i < |thread| :: Follows(thread, numbers, i))
  }

  /** An assistant entry answers the user entry right before it; a user entry opens a later turn. */
  predicate Follows(thread: seq<ThreadEntry>, numbers: seq<nat>, i: nat)
    requires 0 < i < |thread| == |numbers|
  {
    if thread[i].kind.UserMessage? then numbers[i - 1] < numbers[i]
    else thread[i - 1].kind.UserMessage? && numbers[i - 1] == numbers[i]
  }

  function NumbersOf(turns: seq<Turn>): seq<nat> {
    if turns == [] then []
    else
      var t := turns[|turns| - 1];
      NumbersOf(turns[..|turns| - 1]) + (if |EntriesOf(t)| == 1 then [t.number] else [t.number, t.number])
  }

  lemma EntriesShape(t: Turn)
    ensures var e := EntriesOf(t);
      && 1 <= |e| <= 2 && e[0].kind.UserMessage? && e[0].id == TurnId(t.number) + "-user"
      && (|e| == 2 ==> e[1].kind.AssistantMessage? && e[1].id == TurnId(t.number) + "-assistant")
  {
    hide TurnId;
  }

  lemma DialogueGrows(thread: seq<ThreadEntry>, numbers: seq<nat>, t: Turn)
    requires IsDialogue(thread, numbers) && (numbers != [] ==> numbers[|numbers| - 1] < t.number)
    ensures IsDialogue(thread + EntriesOf(t),
                       numbers + if |EntriesOf(t)| == 1 then [t.number] else [t.number, t.number])
  {
    hide TurnId, EntriesOf;
    EntriesShape(t);
    var more := numbers + if |EntriesOf(t)| == 1 then [t.number] else [t.number, t.number];
    var longer := thread + EntriesOf(t);
    forall i | 0 < i < |longer| ensures Follows(longer, more, i) {
      if i < |thread| { assert Follows(thread, numbers, i); }
    }
  }

  lemma {:induction false} HistoryIsDialogue(turns: seq<Turn>)
    requires forall i, j | 0 <= i < j < |turns| :: turns[i].number < turns[j].number
    ensures IsDialogue(HistoryOf(turns), NumbersOf(turns))
    ensures turns != [] ==> NumbersOf(turns) != [] && NumbersOf(turns)[|NumbersOf(turns)| - 1] == turns[|turns| - 1].number
  {
    hide EntriesOf, IsDialogue, TurnId;
    if turns == [] {
      assert IsDialogue([], []) by { EmptyDialogue(); }
    } else {
      var n := |turns| - 1;
      HistoryIsDialogue(turns[..n]);
      DialogueGrows(HistoryOf(turns[..n]), NumbersOf(turns[..n]), turns[n]);
    }
  }

  lemma EmptyDialogue()
    ensures IsDialogue([], [])
  {
  }

  /**
   In every run the full thread is a sequence of user entries, each followed at once by its own assistant entry
   or by none, with strictly increasing turn numbers.
   */
  lemma ThreadIsDialogue(run: seq<Action>)
    requires Play(run).Some?
    ensures exists numbers :: IsDialogue(Play(run).value.thread, numbers)
  {
    hide Play, HistoryOf, IsDialogue, TurnOk;
    RunKeepsInv(run);
    var s := Play(run).value;
    HistoryIsDialogue(s.turns);
    assert IsDialogue(s.thread, NumbersOf(s.turns));
  }

  lemma {:induction false} NumbersRise(thread: seq<ThreadEntry>, numbers: seq<nat>, i: nat, j: nat)
    requires IsDialogue(thread, numbers) && i < j < |thread|
    ensures numbers[i] <= numbers[j]
    ensures thread[j].kind.UserMessage? ==> numbers[i] < numbers[j]
    ensures numbers[i] == numbers[j] ==> thread[i].kind != thread[j].kind
    decreases j
  {
    hide TurnId;
    assert Follows(thread, numbers, j);
    if i < j - 1 {
      NumbersRise(thread, numbers, i, j - 1);
    }
  }

  lemma SuffixesDiffer(a: string, b: string)
    ensures a + "-user" != b + "-assistant"
  {
    var s, t := a + "-user", b + "-assistant";
    assert s[|s| - 1] == 'r' && t[|t| - 1] == 't';
  }

  lemma TurnIdInjective(a: nat, b: nat, suffix: string)
    requires TurnId(a) + suffix == TurnId(b) + suffix
    ensures a == b
  {
    var s, t := Decimal.ToDecimal(a), Decimal.ToDecimal(b);
    assert |TurnId(a)| == |TurnId(b)|;
    assert TurnId(a) == (TurnId(a) + suffix)[..|TurnId(a)|];
    assert TurnId(b) == (TurnId(b) + suffix)[..|TurnId(b)|];
    assert s == TurnId(a)[5..] && t == TurnId(b)[5..];
    Decimal.DecimalInjective(a, b);
  }

  /** So no two entries of a thread ever share an id. */
  lemma ThreadIdsAreUnique(run: seq<Action>)
    requires Play(run).Some?
    ensures var thread := Play(run).value.thread; forall i, j | 0 <= i < j < |thread| :: thread[i].id != thread[j].id
  {
    hide Play, TurnId;
    ThreadIsDialogue(run);
    var thread := Play(run).value.thread;
    var numbers :| IsDialogue(thread, numbers);
    forall i, j | 0 <= i < j < |thread| ensures thread[i].id != thread[j].id {
      NumbersRise(thread, numbers, i, j);
      if thread[i].id == thread[j].id {
        SuffixesDiffer(TurnId(numbers[i]), TurnId(numbers[j]));
        SuffixesDiffer(TurnId(numbers[j]), TurnId(numbers[i]));
        TurnIdInjective(numbers[i], numbers[j], Suffix(thread[i].kind));
      }
    }
  }

  // ---------- what the entries say ----------

  predicate IsUserEntry(e: ThreadEntry, t: Turn) {
    e == ThreadEntry("turn-" + Decimal.ToDecimal(t.number) + "-user", UserMessage, t.prompt)
  }

  /** The turn's entry for a result that completed it; a failed turn has none. */
  predicate IsAssistantEntry(e: ThreadEntry, t: Turn, r: Option<Result>) {
    && r.Some? && r.value.Completed?
    && e == ThreadEntry("turn-" + Decimal.ToDecimal(t.number) + "-assistant", AssistantMessage, r.value.text)
  }

  predicate Says(e: ThreadEntry, t: Turn, r: Option<Result>) {
    IsUserEntry(e, t) || (!Unfinished(t) && IsAssistantEntry(e, t, r))
  }

  lemma {:induction false} HistoryHas(turns: seq<Turn>, e: ThreadEntry)
    ensures e in HistoryOf(turns) <==> exists k :: 0 <= k < |turns| && Says(e, turns[k], turns[k].winner)
  {
    hide Says, EntriesOf;
    if turns != [] {
      var some, last := turns[..|turns| - 1], turns[|turns| - 1];
      assert forall k | 0 <= k < |some| :: some[k] == turns[k];
      HistoryHas(some, e);
      EntriesOfTurn(last, e);
    }
  }

  lemma EntriesOfTurn(t: Turn, e: ThreadEntry)
    ensures e in EntriesOf(t) <==> Says(e, t, t.winner)
  {
    var entries := EntriesOf(t);
    assert entries[0] == UserEntry(t);
    if !Unfinished(t) && t.winner.Some? && t.winner.value.Completed? {
      assert entries[1] == AssistantEntry(t, t.winner.value.text);
    }
  }

  /**
   The entries of every run's thread: for each turn its prompt, and for each turn past its detach the text of the first
   result offered to it, if that completed it; and nothing else.
   */
  lemma EntriesSayTheTurns(run: seq<Action>, e: ThreadEntry)
    requires Play(run).Some?
    ensures var s := Play(run).value;
      e in s.thread <==> exists k :: 0 <= k < |s.turns| && Says(e, s.turns[k], FirstOffer(run, k))
  {
    hide Play, HistoryOf, FirstOffer, Says, TurnOk;
    RunKeepsInv(run);
    var s := Play(run).value;
    HistoryHas(s.turns, e);
    forall k | 0 <= k < |s.turns| ensures s.turns[k].winner == FirstOffer(run, k) { WinnerIsFirstOffer(run, k); }
  }

  /** Each turn's prompt is that of the step that started it. */
  lemma {:induction false} PromptIsTheStarters(run: seq<Action>, k: nat)
    requires Play(run).Some? && k < |Play(run).value.turns|
    ensures exists i :: StartedAt(run, k, i) && run[i] == StartTurn(Play(run).value.turns[k].prompt)
  {
    hide Next, Inv, Enabled;
    if run != [] {
      var g, a := run[..|run| - 1], run[|run| - 1];
      RunKeepsInv(g);
      PromptStep(Play(g).value, a, k);
      if k < |Play(g).value.turns| {
        PromptIsTheStarters(g, k);
        var i :| StartedAt(g, k, i) && g[i] == StartTurn(Play(g).value.turns[k].prompt);
        assert run[..i] == g[..i] && run[..i + 1] == g[..i + 1];
        assert StartedAt(run, k, i);
      } else {
        assert run[..|g| + 1] == run;
        assert StartedAt(run, k, |g|);
      }
    }
  }

  /** Step `i` made turn `k`. */
  ghost predicate StartedAt(run: seq<Action>, k: nat, i: int) {
    && 0 <= i < |run| && Play(run[..i]).Some? && Play(run[..i + 1]).Some?
    && |Play(run[..i]).value.turns| == k && |Play(run[..i + 1]).value.turns| == k + 1
  }

  lemma PromptStep(s: State, a: Action, k: nat)
    requires Inv(s) && Enabled(s, a) && k < |Next(s, a).turns|
    ensures if k < |s.turns| then Next(s, a).turns[k].prompt == s.turns[k].prompt
            else k == |s.turns| && |Next(s, a).turns| == k + 1 && a == StartTurn(Next(s, a).turns[k].prompt)
  {
    hide TurnId, HistoryOf, Numbered, SingleFlight, ClosingOk, Next;
    TurnsAfter(s, a);
  }
}
