/**
 When a trusted snapshot can go wrong. From any world, reached with or without cancelled setters, one decides
 whether some later run without further cancellations ends in a false trusted snapshot.
 */
module ConfigCancel {
  import opened Options
  import opened ConfigFence
  import opened ConfigWorld

  /** The snapshot may stand in for an RPC, nothing is under way to correct it, and it is not the provider's. */
  ghost predicate Misled(w: World) {
    w.fence.current && w.fence.pending == 0 && !HasNote(w.wire) && w.fence.options != ProjectAll(w.options)
  }

  ghost predicate NoCancel(actions: seq<Action>) {
    forall k | 0 <= k < |actions| :: !actions[k].Cancel?
  }

  /** Some run without cancellations. */
  ghost predicate Leads(w: World, t: World) {
    exists actions :: NoCancel(actions) && Run(w, actions) == Some(t)
  }

  ghost predicate Breakable(w: World) {
    exists t :: Leads(w, t) && Misled(t)
  }

  lemma LeadsSelf(w: World)
    ensures Leads(w, w)
  {
    assert NoCancel([]) && Run(w, []) == Some(w);
  }

  lemma LeadsStep(w: World, a: Action, t: World)
    requires Enabled(w, a) && !a.Cancel? && Leads(Next(w, a), t)
    ensures Leads(w, t)
  {
    hide Next, Enabled;
    var actions :| NoCancel(actions) && Run(Next(w, a), actions) == Some(t);
    assert ([a] + actions)[1..] == actions;
    assert NoCancel([a] + actions) && Run(w, [a] + actions) == Some(t);
  }

  lemma BreaksAfter(w: World, a: Action)
    requires Enabled(w, a) && !a.Cancel? && Breakable(Next(w, a))
    ensures Breakable(w)
  {
    hide Next, Enabled, Leads, Misled;
    var t :| Leads(Next(w, a), t) && Misled(t);
    LeadsStep(w, a, t);
  }

  lemma MisledBreaks(w: World)
    requires Misled(w)
    ensures Breakable(w)
  {
    LeadsSelf(w);
  }

  // ---------- an honest world cannot be broken ----------

  lemma {:induction false} RunKeepsInv(w: World, actions: seq<Action>)
    requires Inv(w) && NoCancel(actions) && Run(w, actions).Some?
    ensures Inv(Run(w, actions).value)
    decreases |actions|
  {
    hide Inv, Next, Enabled;
    if actions != [] {
      StepKeepsInv(w, actions[0]);
      RunKeepsInv(Next(w, actions[0]), actions[1..]);
    }
  }

  lemma HonestIsSafe(w: World)
    requires Inv(w)
    ensures !Breakable(w)
  {
    forall t | Leads(w, t) ensures !Misled(t) {
      var actions :| NoCancel(actions) && Run(w, actions) == Some(t);
      RunKeepsInv(w, actions);
      assert TruthOk(t);
    }
  }

  // ---------- ending the setters ----------

  function Unsettled(w: World): set<nat> {
    set id | id in w.setters && !w.setters[id].phase.Settled?
  }

  ghost predicate NoneSent(w: World) {
    forall id :: !InPhase(w, id, Sent)
  }

  /** Nothing but the fence, the setters and the wire's front differ. */
  predicate Rests(w: World, t: World, k: nat)
    requires k <= |w.wire|
  {
    t.setters == map[] && t.wire == w.wire[k..] && t.options == w.options && t.abandoned == w.abandoned
  }

  /** The next step towards a world without setters that has read `k` messages. */
  lemma DrainStep(w: World, k: nat) returns (a: Action, l: nat)
    requires Structural(w) && NoneSent(w) && k <= |w.wire| && RepliedOk(w, k)
    requires w.setters != map[] || k > 0
    ensures Enabled(w, a) && !a.Cancel?
    ensures var t := Next(w, a);
      && NoneSent(t) && l <= k && l <= |t.wire| && RepliedOk(t, l) && t.wire[l..] == w.wire[k..]
      && t.options == w.options && t.abandoned == w.abandoned
      && (l == k ==> Unsettled(t) <= Unsettled(w) && t.setters.Keys <= w.setters.Keys)
      && (l == k ==> Unsettled(t) != Unsettled(w) || t.setters.Keys != w.setters.Keys)
  {
    if id :| id in w.setters && !w.setters[id].phase.Replied? {
      l := k;
      a := SettleStep(w, id, k);
    } else {
      assert k > 0 by { SomeoneWaits(w, k); }
      l, a := k - 1, ReadNext;
      ReadStep(w, k);
    }
  }

  lemma SomeoneWaits(w: World, k: nat)
    requires k <= |w.wire| && RepliedOk(w, k) && (w.setters != map[] || k > 0)
    requires forall id | id in w.setters :: w.setters[id].phase.Replied?
    ensures k > 0
  {
    if w.setters != map[] {
      assert w.setters.Keys != {};
      var id :| id in w.setters;
      assert InPhase(w, id, Replied) && AnsweredBefore(w, id, k);
    }
  }

  /** A setter that waits for nobody takes its next step. */
  lemma SettleStep(w: World, id: nat, k: nat) returns (a: Action)
    requires NoneSent(w) && k <= |w.wire| && RepliedOk(w, k) && id in w.setters && !w.setters[id].phase.Replied?
    ensures Enabled(w, a) && !a.Cancel?
    ensures var t := Next(w, a);
      && NoneSent(t) && t.wire == w.wire && RepliedOk(t, k) && t.options == w.options && t.abandoned == w.abandoned
      && Unsettled(t) <= Unsettled(w) && t.setters.Keys <= w.setters.Keys
      && (Unsettled(t) != Unsettled(w) || t.setters.Keys != w.setters.Keys)
  {
    hide Install, AnsweredBefore;
    assert !InPhase(w, id, Sent);
    var phase := w.setters[id].phase;
    a := if phase.Begun? then FailToSend(id) else if phase.Delivered? then InstallAnswer(id) else End(id);
    var t := Next(w, a);
    assert if phase.Settled? then id !in t.setters else id in Unsettled(w) && id !in Unsettled(t);
    forall x ensures !InPhase(t, x, Sent) { assert !InPhase(w, x, Sent); }
    forall x | InPhase(t, x, Replied) ensures AnsweredBefore(t, x, k) {
      assert InPhase(w, x, Replied) && AnsweredBefore(w, x, k);
      SameAnswers(w, t, x, k);
    }
  }

  lemma SameAnswers(w: World, t: World, id: nat, k: nat)
    requires k <= |w.wire| && t.wire == w.wire && AnsweredBefore(w, id, k)
    ensures AnsweredBefore(t, id, k)
  {
  }

  lemma ReadStep(w: World, k: nat)
    requires NoneSent(w) && 0 < k <= |w.wire| && RepliedOk(w, k)
    ensures var t := Next(w, ReadNext);
      && NoneSent(t) && t.wire == w.wire[1..] && t.wire[k - 1..] == w.wire[k..] && RepliedOk(t, k - 1)
      && t.options == w.options && t.abandoned == w.abandoned
  {
    hide NotifyOptions, NotifyMode, AnsweredBefore;
    var t := Next(w, ReadNext);
    forall x ensures !InPhase(t, x, Sent) { assert !InPhase(w, x, Sent); }
    forall x | InPhase(t, x, Replied) ensures AnsweredBefore(t, x, k - 1) {
      assert InPhase(w, x, Replied) && AnsweredBefore(w, x, k);
      StillAnswered(w, t, x, k);
    }
  }

  lemma ProperSubset(a: set<nat>, b: set<nat>)
    requires a <= b && a != b
    ensures |a| < |b|
  {
    assert b == a + (b - a);
    var x :| x in b && x !in a;
    assert x in b - a;
  }

  lemma SubsetSize(a: set<nat>, b: set<nat>)
    requires a <= b
    ensures |a| <= |b|
  {
    assert b == a + (b - a);
  }

  /** With no request at the provider, every setter can end while exactly `k` messages are read. */
  lemma {:induction false} Drain(w: World, k: nat) returns (t: World)
    requires Structural(w) && NoneSent(w) && k <= |w.wire| && RepliedOk(w, k)
    ensures Leads(w, t) && Structural(t) && Rests(w, t, k)
    decreases k, |Unsettled(w)|, |w.setters.Keys|
  {
    hide Structural, NoneSent, RepliedOk, Next, Enabled, Leads, Unsettled;
    if w.setters == map[] && k == 0 {
      t := w;
      LeadsSelf(w);
    } else {
      var a, l := DrainStep(w, k);
      StepKeepsStructural(w, a);
      if l == k {
        SubsetSize(Unsettled(Next(w, a)), Unsettled(w));
        if Unsettled(Next(w, a)) != Unsettled(w) {
          ProperSubset(Unsettled(Next(w, a)), Unsettled(w));
        } else {
          ProperSubset(Next(w, a).setters.Keys, w.setters.Keys);
        }
      }
      t := Drain(Next(w, a), l);
      LeadsStep(w, a, t);
    }
  }

  /** Every request at the provider can be refused. */
  lemma {:induction false} RefuseAll(w: World) returns (t: World)
    requires Structural(w)
    ensures Leads(w, t) && Structural(t) && NoneSent(t) && t.options == w.options && t.abandoned == w.abandoned
    decreases |SentIds(w)|
  {
    hide Structural, Leads;
    if id :| InPhase(w, id, Sent) {
      var a := AnswerWith(id, Refused);
      StepKeepsStructural(w, a);
      assert id in SentIds(w) && id !in SentIds(Next(w, a)) && SentIds(Next(w, a)) <= SentIds(w);
      ProperSubset(SentIds(Next(w, a)), SentIds(w));
      t := RefuseAll(Next(w, a));
      LeadsStep(w, a, t);
    } else {
      t := w;
      LeadsSelf(w);
    }
  }

  function SentIds(w: World): set<nat> {
    set id | id in w.setters && w.setters[id].phase.Sent?
  }

  /** Leads is transitive where it matters. */
  lemma BreaksVia(w: World, u: World)
    requires Leads(w, u) && Breakable(u)
    ensures Breakable(w)
  {
    hide Misled;
    var t :| Leads(u, t) && Misled(t);
    var first :| NoCancel(first) && Run(w, first) == Some(u);
    var more :| NoCancel(more) && Run(u, more) == Some(t);
    RunsJoin(w, first, u, more);
    assert NoCancel(first + more);
  }

  lemma {:induction false} RunsJoin(w: World, first: seq<Action>, u: World, more: seq<Action>)
    requires Run(w, first) == Some(u)
    ensures Run(w, first + more) == Run(u, more)
    decreases |first|
  {
    hide Next, Enabled;
    if first == [] {
      assert first + more == more;
    } else {
      assert (first + more)[1..] == first[1..] + more;
      RunsJoin(Next(w, first[0]), first[1..], u, more);
    }
  }

  // ---------- the four ways to break a world ----------

  function Other(options: seq<ConfigOption>): (r: seq<ConfigOption>)
    ensures !Same(r, options)
  {
    if options == [] then [ConfigOption("", "", None, None, None)] else []
  }

  /** An abandoned request may take effect behind an idle notification, unseen. */
  lemma AbandonedBreaks(w: World, id: nat)
    requires Structural(w) && id in w.abandoned
    ensures Breakable(w)
  {
    hide Structural, RepliedOk, Leads, Misled, ProjectAll, RawConfigOf;
    var u := RefuseAll(w);
    assert RepliedOk(u, |u.wire|) by { AllReplied(u); }
    var t := Drain(u, |u.wire|);
    assert t.fence.pending == 0 by { NobodyPending(t); }
    LateEffect(t, id);
    BreaksVia(u, t);
    BreaksVia(w, u);
  }

  lemma AllReplied(w: World)
    requires Structural(w)
    ensures RepliedOk(w, |w.wire|)
  {
  }

  lemma NobodyPending(w: World)
    requires Structural(w) && w.setters == map[]
    ensures w.fence.pending == 0
  {
  }

  lemma LateEffect(w: World, id: nat)
    requires w.setters == map[] && w.wire == [] && w.fence.pending == 0 && id in w.abandoned
    ensures Breakable(w)
  {
    hide RawConfigOf, Leads;
    var noted := Next(w, ChangeOptions(w.mode, w.options));
    var read := Next(noted, ReadNext);
    var late := Next(read, Apply(id, w.mode, Other(w.options)));
    assert noted.wire == [OptionsNote(w.options)] && read.wire == [];
    assert Misled(late);
    MisledBreaks(late);
    BreaksAfter(read, Apply(id, w.mode, Other(w.options)));
    BreaksAfter(noted, ReadNext);
    BreaksAfter(w, ChangeOptions(w.mode, w.options));
  }

  /** A stale last notification that nothing covers is read when no setter is left to distrust it. */
  lemma StaleNoteBreaks(w: World)
    requires Structural(w) && LastNoteIsStale(w) && !Covered(w, LastNote(w.wire))
    ensures Breakable(w)
  {
    hide Structural, RepliedOk, LastNote, Leads, Misled, Same;
    var k := LastNote(w.wire);
    assert NoneSent(w);
    assert RepliedOk(w, k) by { AnsweredAhead(w, k); }
    var t := Drain(w, k);
    assert t.wire[0] == w.wire[k];
    NobodyPending(t);
    assert !HasNote(t.wire[1..]) by { NothingBehind(w.wire, k, t.wire); }
    IdleRead(t);
    BreaksVia(w, t);
  }

  lemma AnsweredAhead(w: World, k: nat)
    requires Structural(w) && k < |w.wire| && IsNote(w.wire[k]) && !Covered(w, k)
    ensures RepliedOk(w, k)
  {
    forall id | InPhase(w, id, Replied) ensures AnsweredBefore(w, id, k) {
      assert AnsweredBefore(w, id, |w.wire|);
      var j :| 0 <= j < |w.wire| && IsReplyTo(w.wire[j], id);
      assert Live(w, j) && j != k;
    }
  }

  lemma NothingBehind(wire: seq<Msg>, k: nat, rest: seq<Msg>)
    requires k == LastNote(wire) && rest == wire[k..]
    ensures !HasNote(rest[1..])
  {
    assert forall i | 0 <= i < |rest[1..]| :: rest[1..][i] == wire[k + 1 + i];
  }

  lemma IdleRead(w: World)
    requires w.setters == map[] && w.fence.pending == 0 && w.wire != [] && w.wire[0].OptionsNote?
    requires !Same(w.wire[0].options, w.options) && !HasNote(w.wire[1..])
    ensures Breakable(w)
  {
    hide RawConfigOf, LastNote;
    assert Misled(Next(w, ReadNext));
    MisledBreaks(Next(w, ReadNext));
    BreaksAfter(w, ReadNext);
  }

  /** A trusted snapshot that is already false only waits for its setters to end. */
  lemma FalseTrustBreaks(w: World)
    requires Structural(w) && !TruthOk(w)
    ensures Breakable(w)
    decreases |w.setters.Keys|
  {
    hide LastNote, ReplyOk, AloneOk;
    if w.setters == map[] {
      MisledBreaks(w);
    } else {
      assert w.setters.Keys != {};
      var id :| id in w.setters;
      var t := Next(w, End(id));
      StepKeepsStructural(w, End(id));
      assert t.setters.Keys == w.setters.Keys - {id};
      ProperSubset(t.setters.Keys, w.setters.Keys);
      FalseTrustBreaks(t);
      BreaksAfter(w, End(id));
    }
  }

  /** An answer that is trusted when it is installed, though it is no longer true. */
  lemma DeliveredBreaks(w: World, id: nat)
    requires Structural(w) && !HasNote(w.wire) && id in w.setters && w.setters[id].phase.Delivered?
    requires Trustable(w, id, w.setters[id].phase.answer) && !Same(w.setters[id].phase.answer.options, w.options)
    ensures Breakable(w)
  {
    hide LastNote, ReplyOk, RepliedOk, QuietOk, RawConfigOf;
    var a := InstallAnswer(id);
    OnlyOne(w, id);
    StepKeepsStructural(w, a);
    FalseTrustBreaks(Next(w, a));
    BreaksAfter(w, a);
  }

  lemma OnlyOne(w: World, id: nat)
    requires Structural(w) && id in w.setters && Undisturbed(w, id)
    ensures w.setters.Keys == {id} && w.fence.pending == 1
  {
    assert forall other | other in w.setters :: other == id;
    assert w.setters.Keys == {id};
    assert |w.setters| == |w.setters.Keys|;
  }

  /** The same while the answer is still on the wire, `j` messages away. */
  lemma {:induction false} WaitingBreaks(w: World, j: nat)
    requires Structural(w) && !HasNote(w.wire) && j < |w.wire| && Live(w, j)
    requires Trustable(w, w.wire[j].id, w.wire[j].answer) && !Same(w.wire[j].answer.options, w.options)
    ensures Breakable(w)
    decreases j
  {
    hide LastNote, RepliedOk, QuietOk, RawConfigOf, Same;
    var id := w.wire[j].id;
    var t := Next(w, ReadNext);
    OnlyOne(w, id);
    StepKeepsStructural(w, ReadNext);
    LastNoteTail(w.wire);
    assert !IsNote(w.wire[0]);
    if j == 0 {
      assert t.setters[id].phase == Delivered(w.wire[0].answer);
      DeliveredBreaks(t, id);
    } else {
      assert w.wire[0].id != id;
      assert t.setters == w.setters && t.wire[j - 1] == w.wire[j];
      WaitingBreaks(t, j - 1);
    }
    BreaksAfter(w, ReadNext);
  }

  ghost predicate StaleDelivered(w: World, id: nat) {
    && id in w.setters && w.setters[id].phase.Delivered? && Trustable(w, id, w.setters[id].phase.answer)
    && !Same(w.setters[id].phase.answer.options, w.options)
  }

  ghost predicate StaleAhead(w: World, j: nat) {
    && j < |w.wire| && Live(w, j) && Trustable(w, w.wire[j].id, w.wire[j].answer)
    && !Same(w.wire[j].answer.options, w.options)
  }

  lemma NoneIsStale(w: World)
    requires (forall id :: !StaleDelivered(w, id)) && (forall j: nat :: !StaleAhead(w, j))
    ensures AnswerOk(w)
  {
    hide LastNote, Same, Trustable;
    forall id | id in w.setters && w.setters[id].phase.Delivered? && Trustable(w, id, w.setters[id].phase.answer)
      ensures w.setters[id].phase.answer.Snapshot? && Same(w.setters[id].phase.answer.options, w.options)
    {
      TrustableIsSnapshot(w, id, w.setters[id].phase.answer);
      assert !StaleDelivered(w, id);
    }
    forall j | 0 <= j < |w.wire| && Live(w, j) && Trustable(w, w.wire[j].id, w.wire[j].answer)
      ensures w.wire[j].answer.Snapshot? && Same(w.wire[j].answer.options, w.options)
    {
      TrustableIsSnapshot(w, w.wire[j].id, w.wire[j].answer);
      assert !StaleAhead(w, j);
    }
  }

  lemma DeliveredNeedsNoNote(w: World)
    requires !AnswerOk(w)
    ensures !HasNote(w.wire)
  {
    hide LastNote;
  }

  lemma TrustableIsSnapshot(w: World, id: nat, answer: Answer)
    requires Trustable(w, id, answer)
    ensures answer.Snapshot?
  {
  }

  lemma AnswersBreak(w: World)
    requires Structural(w) && !AnswerOk(w)
    ensures Breakable(w)
  {
    hide Structural, LastNote, Same, Breakable, AnswerOk;
    if (forall id :: !StaleDelivered(w, id)) && (forall j: nat :: !StaleAhead(w, j)) {
      NoneIsStale(w);
    } else if id :| StaleDelivered(w, id) {
      DeliveredNeedsNoNote(w);
      DeliveredBreaks(w, id);
    } else {
      var j: nat :| StaleAhead(w, j);
      DeliveredNeedsNoNote(w);
      WaitingBreaks(w, j);
    }
  }

  // ---------- exactly when ----------

  /** What any run leads to, cancellations included, from a session start that agrees with the provider. */
  ghost predicate Attainable(w: World) {
    exists mode, options, reported, actions :: Run(Start(mode, options, reported), actions) == Some(w)
  }

  lemma {:induction false} RunKeepsStructural(w: World, actions: seq<Action>)
    requires Structural(w) && Run(w, actions).Some?
    ensures Structural(Run(w, actions).value)
    decreases |actions|
  {
    hide Structural, Next, Enabled;
    if actions != [] {
      StepKeepsStructural(w, actions[0]);
      RunKeepsStructural(Next(w, actions[0]), actions[1..]);
    }
  }

  lemma AttainableIsStructural(w: World)
    requires Attainable(w)
    ensures Structural(w)
  {
    hide Structural, Honest, Run, Start;
    var mode, options, reported, actions :| Run(Start(mode, options, reported), actions) == Some(w);
    StartIsOk(mode, options, reported);
    RunKeepsStructural(Start(mode, options, reported), actions);
  }

  lemma StructuralBreaksExactly(w: World)
    requires Structural(w)
    ensures Breakable(w) <==> !Honest(w)
  {
    hide Structural, Breakable, AnswerOk, TruthOk, Covered, LastNoteIsStale;
    if w.abandoned != {} {
      var id :| id in w.abandoned;
      AbandonedBreaks(w, id);
    } else if !LastNoteOk(w) {
      StaleNoteBreaks(w);
    } else if !AnswerOk(w) {
      AnswersBreak(w);
    } else if !TruthOk(w) {
      FalseTrustBreaks(w);
    } else {
      HonestIsSafe(w);
    }
  }

  /**
   A world can go wrong without a further cancellation exactly when an abandoned request may still take effect, or a
   stale last notification is covered by no setter, or a snapshot that can become trusted is stale, or the trusted
   one already is.
   */
  lemma BreakableExactly(w: World)
    requires Attainable(w)
    ensures Breakable(w) <==> !Honest(w)
  {
    AttainableIsStructural(w);
    StructuralBreaksExactly(w);
  }

  /** The last notification lies ahead of this setter's answer, is stale, and no other setter covers it. */
  ghost predicate Exposes(w: World, id: nat) {
    && LastNoteIsStale(w)
    && (forall x :: !InPhase(w, x, Sent))
    && forall j | LastNote(w.wire) < j < |w.wire| && Live(w, j) :: w.wire[j].id == id
  }

  /** A cancellation that can cost the snapshot its truth. */
  ghost predicate Harmful(w: World, id: nat) {
    InPhase(w, id, Sent) || (InPhase(w, id, Replied) && Exposes(w, id))
  }

  lemma CancelledCover(w: World, id: nat)
    requires Inv(w) && InPhase(w, id, Replied)
    ensures LastNoteOk(Next(w, Cancel(id))) <==> !Exposes(w, id)
  {
    hide Structural, LastNote, Same, AnswerOk, TruthOk;
    var t := Next(w, Cancel(id));
    forall j | 0 <= j < |w.wire| ensures Live(t, j) <==> Live(w, j) && w.wire[j].id != id {
    }
    forall x ensures InPhase(t, x, Sent) <==> InPhase(w, x, Sent) {
    }
  }

  lemma CancelKeepsRest(w: World, id: nat)
    requires Inv(w) && Enabled(w, Cancel(id)) && !InPhase(w, id, Sent)
    ensures var t := Next(w, Cancel(id)); AnswerOk(t) && TruthOk(t) && t.abandoned == {}
  {
    hide Structural, LastNote, Same, LastNoteOk;
    var t := Next(w, Cancel(id));
    if !HasNote(t.wire) {
      forall j | 0 <= j < |t.wire| && Live(t, j) && Trustable(t, t.wire[j].id, t.wire[j].answer)
        ensures Same(t.wire[j].answer.options, t.options)
      {
        assert Live(w, j) && Trustable(w, w.wire[j].id, w.wire[j].answer);
      }
      forall x | x in t.setters && t.setters[x].phase.Delivered? && Trustable(t, x, t.setters[x].phase.answer)
        ensures Same(t.setters[x].phase.answer.options, t.options)
      {
        assert Trustable(w, x, w.setters[x].phase.answer);
      }
    }
  }

  lemma DeliveredCancelCovers(w: World, id: nat)
    requires Inv(w) && id in w.setters && w.setters[id].phase.Delivered?
    ensures LastNoteOk(Next(w, Cancel(id)))
  {
    hide Structural, LastNote, Same, AnswerOk, TruthOk, LastNoteOk;
    KeepsCover(w, Next(w, Cancel(id)));
  }

  /** Cancelling one setter of an honest world breaks it exactly when the cancellation is harmful. */
  lemma CancelBreaksExactly(w: World, id: nat)
    requires Inv(w) && Enabled(w, Cancel(id))
    ensures Breakable(Next(w, Cancel(id))) <==> Harmful(w, id)
  {
    hide Structural, Breakable, LastNoteOk, AnswerOk, TruthOk, Exposes;
    var t := Next(w, Cancel(id));
    StepKeepsStructural(w, Cancel(id));
    StructuralBreaksExactly(t);
    if InPhase(w, id, Sent) {
      assert id in t.abandoned;
    } else {
      CancelKeepsRest(w, id);
      if InPhase(w, id, Replied) { CancelledCover(w, id); } else { DeliveredCancelCovers(w, id); }
    }
  }
}
