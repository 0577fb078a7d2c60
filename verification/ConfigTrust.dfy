/**
 What trusting the config snapshot is worth: the provider's own options, in every run whose cancelled setters do
 no harm; and after the first that does, some run goes wrong.
 */
module ConfigTrust {
  import opened Options
  import opened ConfigFence
  import opened ConfigWorld
  import opened ConfigCancel

  /** A run in which no cancellation is harmful when it happens. */
  ghost predicate Careful(w: World, actions: seq<Action>)
    decreases |actions|
  {
    actions == [] ||
    (Enabled(w, actions[0]) && (actions[0].Cancel? ==> !Harmful(w, actions[0].id)) && Careful(Next(w, actions[0]), actions[1..]))
  }

  /** What some such run leads to, from a session start that agrees with the provider. */
  ghost predicate Reachable(w: World) {
    exists mode, options, reported, actions ::
      Careful(Start(mode, options, reported), actions) && Run(Start(mode, options, reported), actions) == Some(w)
  }

  lemma CarefulStep(w: World, a: Action)
    requires Inv(w) && Enabled(w, a) && (a.Cancel? ==> !Harmful(w, a.id))
    ensures Inv(Next(w, a))
  {
    hide Structural, Honest, Harmful, Next, Enabled, Breakable;
    if a.Cancel? {
      CancelBreaksExactly(w, a.id);
      StepKeepsStructural(w, a);
      StructuralBreaksExactly(Next(w, a));
    } else {
      StepKeepsInv(w, a);
    }
  }

  lemma {:induction false} CarefulRunKeepsInv(w: World, actions: seq<Action>)
    requires Inv(w) && Careful(w, actions) && Run(w, actions).Some?
    ensures Inv(Run(w, actions).value)
    decreases |actions|
  {
    hide Inv, Next, Enabled, Harmful;
    if actions != [] {
      CarefulStep(w, actions[0]);
      CarefulRunKeepsInv(Next(w, actions[0]), actions[1..]);
    }
  }

  lemma ReachableInv(w: World)
    requires Reachable(w)
    ensures Inv(w)
  {
    hide Inv, Run, Start, Careful;
    var mode, options, reported, actions :|
      Careful(Start(mode, options, reported), actions) && Run(Start(mode, options, reported), actions) == Some(w);
    StartIsOk(mode, options, reported);
    CarefulRunKeepsInv(Start(mode, options, reported), actions);
  }

  /**
   Trusted means true: in every reachable state with no notification undelivered, a snapshot marked current equals
   the provider's options, even while a setter is between its install and its end.
   */
  lemma TrustedMeansTrue(w: World)
    requires Reachable(w) && w.fence.current && !HasNote(w.wire)
    ensures w.fence.options == ProjectAll(w.options)
  {
    hide Reachable;
    ReachableInv(w);
  }

  function Reported(options: seq<ConfigOption>, id: string): Option<Setting> {
    if options == [] then None
    else if options[0].id == id then options[0].value
    else Reported(options[1..], id)
  }

  lemma {:induction false} FindProjected(options: seq<ConfigOption>, id: string)
    ensures Find(ProjectAll(options), id) == Reported(options, id)
    decreases |options|
  {
    if options != [] {
      assert ProjectAll(options)[1..] == ProjectAll(options[1..]);
      FindProjected(options[1..], id);
    }
  }

  /** initialConfigOptionEqual suppresses only RPCs for values the provider already has. */
  lemma SuppressedIsRedundant(w: World, id: string, value: Option<Setting>)
    requires Reachable(w) && !HasNote(w.wire) && InitialOptionEqual(w.fence, id, value)
    ensures value.Some? && Reported(w.options, id) == value && w.setters == map[]
  {
    hide Reachable;
    TrustedMeansTrue(w);
    ReachableInv(w);
    FindProjected(w.options, id);
  }

  /** configChangesPending counts the setters between begin and end, and the count test of a response is implied. */
  lemma PendingCountsSetters(w: World, id: nat)
    requires Attainable(w)
    ensures w.fence.pending == |w.setters|
    ensures id in w.setters && Undisturbed(w, id) ==> w.fence.pending == 1 && MayTrust(w.fence, w.setters[id].ticket)
  {
    hide Attainable;
    AttainableIsStructural(w);
    if id in w.setters && Undisturbed(w, id) { OnlyOne(w, id); }
  }

  // ---------- where the guarantee ends ----------

  /** A setter cancelled while its request is at the provider always opens a way to a false trusted snapshot. */
  lemma CancellationBreaksTrust(w: World, id: nat)
    requires Reachable(w) && InPhase(w, id, Sent)
    ensures Breakable(Next(w, Cancel(id)))
  {
    hide Reachable, Breakable, Inv;
    ReachableInv(w);
    CancelBreaksExactly(w, id);
  }

  /**
   One cancelled after its answer does exactly when the last notification on the wire lies ahead of that answer,
   is no longer the provider's, and no other request at the provider and no later awaited answer covers it.
   */
  lemma LateCancellationBreaksTrustExactly(w: World, id: nat)
    requires Reachable(w) && InPhase(w, id, Replied)
    ensures Breakable(Next(w, Cancel(id))) <==> Exposes(w, id)
    ensures Exposes(w, id) ==> exists j :: LastNote(w.wire) < j < |w.wire| && IsReplyTo(w.wire[j], id)
  {
    hide Reachable, Breakable, Structural, AnswerOk, TruthOk, LastNote;
    ReachableInv(w);
    CancelBreaksExactly(w, id);
    if Exposes(w, id) {
      var j :| LastNote(w.wire) < j < |w.wire| && Live(w, j);
      assert IsReplyTo(w.wire[j], id);
    }
  }

  /** One cancelled when its answer is already with the caller never does. */
  lemma CancellationOfDeliveredIsHarmless(w: World, id: nat)
    requires Reachable(w) && id in w.setters && w.setters[id].phase.Delivered?
    ensures !Breakable(Next(w, Cancel(id)))
  {
    hide Reachable, Breakable, Inv;
    ReachableInv(w);
    CancelBreaksExactly(w, id);
  }

  lemma {:induction false} CarefulSnoc(w: World, actions: seq<Action>, t: World, a: Action)
    requires Careful(w, actions) && Run(w, actions) == Some(t) && Enabled(t, a) && !a.Cancel?
    ensures Careful(w, actions + [a]) && Run(w, actions + [a]) == Some(Next(t, a))
    decreases |actions|
  {
    hide Next, Enabled, Harmful;
    if actions == [] {
      assert [] + [a] == [a];
    } else {
      assert (actions + [a])[1..] == actions[1..] + [a];
      CarefulSnoc(Next(w, actions[0]), actions[1..], t, a);
    }
  }

  lemma ReachableStep(w: World, a: Action)
    requires Reachable(w) && Enabled(w, a) && !a.Cancel?
    ensures Reachable(Next(w, a))
  {
    hide Run, Start, Careful, Next, Enabled;
    var mode, options, reported, actions :|
      Careful(Start(mode, options, reported), actions) && Run(Start(mode, options, reported), actions) == Some(w);
    CarefulSnoc(Start(mode, options, reported), actions, w, a);
  }

  lemma StartIsReachable(mode: string, options: seq<ConfigOption>, reported: bool)
    ensures Reachable(Start(mode, options, reported))
  {
    var w := Start(mode, options, reported);
    assert Careful(w, []) && Run(w, []) == Some(w);
  }

  /** A first setter whose request is at the provider. */
  function FirstSent(mode: string, options: seq<ConfigOption>, reported: bool, request: Request): World {
    Next(Next(Start(mode, options, reported), Begin(request)), Send(0))
  }

  /** Any first setter can be cancelled to that effect. */
  lemma FirstSetterMayBreakTrust(mode: string, options: seq<ConfigOption>, reported: bool, request: Request)
    ensures var w := FirstSent(mode, options, reported, request);
      Reachable(w) && InPhase(w, 0, Sent) && Breakable(Next(w, Cancel(0)))
  {
    hide Reachable, Breakable;
    StartIsReachable(mode, options, reported);
    ReachableStep(Start(mode, options, reported), Begin(request));
    ReachableStep(Next(Start(mode, options, reported), Begin(request)), Send(0));
    CancellationBreaksTrust(FirstSent(mode, options, reported, request), 0);
  }

  /** One whose provider announced its options, then changed them for the setter, then answered. */
  function FirstAnswered(mode: string, options: seq<ConfigOption>, reported: bool, request: Request): World {
    var noted := Next(FirstSent(mode, options, reported, request), ChangeOptions(mode, options));
    Next(Next(noted, Apply(0, mode, Other(options))), AnswerWith(0, Accepted))
  }

  lemma FirstAnsweredShape(mode: string, options: seq<ConfigOption>, reported: bool, request: Request)
    ensures var w := FirstAnswered(mode, options, reported, request);
      && w.wire == [OptionsNote(options), Reply(0, Accepted)] && w.options == Other(options) && w.abandoned == {}
      && w.setters.Keys == {0} && InPhase(w, 0, Replied)
  {
    hide Boot, ProjectAll;
  }

  lemma FirstAnsweredIsReachable(mode: string, options: seq<ConfigOption>, reported: bool, request: Request)
    ensures Reachable(FirstAnswered(mode, options, reported, request))
  {
    hide Reachable, Boot, ProjectAll, Breakable;
    var u := FirstSent(mode, options, reported, request);
    FirstSetterMayBreakTrust(mode, options, reported, request);
    var noted := Next(u, ChangeOptions(mode, options));
    ReachableStep(u, ChangeOptions(mode, options));
    var applied := Next(noted, Apply(0, mode, Other(options)));
    ReachableStep(noted, Apply(0, mode, Other(options)));
    ReachableStep(applied, AnswerWith(0, Accepted));
  }

  /** And after its answer, when the provider announced options that the setter then changed. */
  lemma AnsweredSetterMayBreakTrust(mode: string, options: seq<ConfigOption>, reported: bool, request: Request)
    ensures var w := FirstAnswered(mode, options, reported, request);
      Reachable(w) && InPhase(w, 0, Replied) && Exposes(w, 0) && w.abandoned == {}
  {
    hide Reachable, Next, FirstAnswered, ProjectAll;
    var w := FirstAnswered(mode, options, reported, request);
    FirstAnsweredIsReachable(mode, options, reported, request);
    FirstAnsweredShape(mode, options, reported, request);
    LastNoteAppend([OptionsNote(options)], Reply(0, Accepted));
    LastNoteAppend([], OptionsNote(options));
    assert [] + [OptionsNote(options)] == [OptionsNote(options)];
    assert [OptionsNote(options)] + [Reply(0, Accepted)] == w.wire;
  }
}
