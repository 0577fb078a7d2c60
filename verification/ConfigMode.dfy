/**
 The cached mode while a session is configured for the first time. The initial-mode test runs before any setter has
 been sent; in every such world with nothing under way it compares with the mode that the provider announced last.
 */
module ConfigMode {
  import opened Options
  import opened ConfigFence
  import opened ConfigWorld

  ghost predicate NoBegin(actions: seq<Action>) {
    forall k | 0 <= k < |actions| :: !actions[k].Begin?
  }

  /** The mode of the last mode notification sent in a run, or the one the session started with. */
  function Announced(mode: string, actions: seq<Action>): string {
    if actions == [] then mode
    else
      var last := actions[|actions| - 1];
      if last.ChangeMode? then last.mode else Announced(mode, actions[..|actions| - 1])
  }

  /** The cached mode once everything on the wire is read. */
  function ModeRead(mode: string, wire: seq<Msg>): string
    decreases |wire|
  {
    if wire == [] then mode
    else ModeRead(if wire[0].ModeNote? && wire[0].mode != "" then wire[0].mode else mode, wire[1..])
  }

  lemma {:induction false} ModeReadAppend(mode: string, wire: seq<Msg>, msg: Msg)
    ensures ModeRead(mode, wire + [msg])
         == if msg.ModeNote? && msg.mode != "" then msg.mode else ModeRead(mode, wire)
    decreases |wire|
  {
    if wire == [] {
      assert [] + [msg] == [msg];
    } else {
      assert (wire + [msg])[1..] == wire[1..] + [msg];
      ModeReadAppend(if wire[0].ModeNote? && wire[0].mode != "" then wire[0].mode else mode, wire[1..], msg);
    }
  }

  lemma {:induction false} NothingRead(mode: string, wire: seq<Msg>)
    requires !HasNote(wire)
    ensures ModeRead(mode, wire) == mode
    decreases |wire|
  {
    hide LastNote;
    if wire != [] {
      LastNoteTail(wire);
      NothingRead(mode, wire[1..]);
    }
  }

  ghost predicate BeforeSetters(w: World, announced: string) {
    w.setters == map[] && w.abandoned == {} && w.fence.pending == 0 && ModeRead(w.fence.mode, w.wire) == announced
  }

  lemma FreshStep(w: World, a: Action, announced: string)
    requires BeforeSetters(w, announced) && Enabled(w, a) && !a.Begin?
    ensures BeforeSetters(Next(w, a), if a.ChangeMode? then a.mode else announced)
  {
    hide RawConfigOf, ProjectAll, LastNote;
    if a.ChangeMode? { ModeReadAppend(w.fence.mode, w.wire, ModeNote(a.mode)); }
    if a.ChangeOptions? { ModeReadAppend(w.fence.mode, w.wire, OptionsNote(a.options)); }
  }

  lemma {:induction false} RunSnoc(w: World, actions: seq<Action>)
    requires actions != [] && Run(w, actions).Some?
    ensures var g, a := actions[..|actions| - 1], actions[|actions| - 1];
      Run(w, g).Some? && Enabled(Run(w, g).value, a) && Run(w, actions).value == Next(Run(w, g).value, a)
    decreases |actions|
  {
    hide Next, Enabled;
    if |actions| == 1 {
      assert actions[..0] == [];
    } else {
      RunSnoc(Next(w, actions[0]), actions[1..]);
      assert actions[1..][..|actions| - 2] == actions[..|actions| - 1][1..];
    }
  }

  lemma {:induction false} FreshRun(mode: string, options: seq<ConfigOption>, reported: bool, actions: seq<Action>)
    requires NoBegin(actions) && Run(Start(mode, options, reported), actions).Some?
    ensures BeforeSetters(Run(Start(mode, options, reported), actions).value, Announced(mode, actions))
  {
    hide Next, Enabled, RawConfigOf, ProjectAll, BeforeSetters;
    if actions == [] {
      assert BeforeSetters(Start(mode, options, reported), mode) by { StartIsFresh(mode, options, reported); }
    } else {
      var g := actions[..|actions| - 1];
      RunSnoc(Start(mode, options, reported), actions);
      FreshRun(mode, options, reported, g);
      FreshStep(Run(Start(mode, options, reported), g).value, actions[|actions| - 1], Announced(mode, g));
    }
  }

  lemma StartIsFresh(mode: string, options: seq<ConfigOption>, reported: bool)
    ensures BeforeSetters(Start(mode, options, reported), mode)
  {
  }

  /** What a run without setters leads to, and the mode last announced in it. */
  ghost predicate Untouched(w: World, announced: string) {
    exists mode, options, reported, actions ::
      NoBegin(actions) && Run(Start(mode, options, reported), actions) == Some(w) && Announced(mode, actions) == announced
  }

  /** Before any setter, with nothing under way, the test passes for the mode announced last and for no other. */
  lemma ModeTestComparesAnnounced(w: World, announced: string, m: string)
    requires Untouched(w, announced) && !HasNote(w.wire)
    ensures InitialModeEqual(w.fence, m, false) <==> m == announced
  {
    hide Run, Start, LastNote, Announced, NoBegin;
    var mode, options, reported, actions :|
      NoBegin(actions) && Run(Start(mode, options, reported), actions) == Some(w) && Announced(mode, actions) == announced;
    FreshRun(mode, options, reported, actions);
    NothingRead(w.fence.mode, w.wire);
  }

  /** The provider announces every change of its mode: a change of options alone keeps it. */
  ghost predicate Announces(w: World, actions: seq<Action>)
    requires Run(w, actions).Some?
    decreases |actions|
  {
    actions == [] ||
    ((actions[0].ChangeOptions? ==> actions[0].mode == w.mode) && Announces(Next(w, actions[0]), actions[1..]))
  }

  lemma {:induction false} AnnouncedIsActual(w: World, actions: seq<Action>)
    requires NoBegin(actions) && Run(w, actions).Some? && w.setters == map[] && w.abandoned == {} && Announces(w, actions)
    ensures Run(w, actions).value.mode == Announced(w.mode, actions)
    decreases |actions|
  {
    hide RawConfigOf, ProjectAll;
    if actions != [] {
      var t := Next(w, actions[0]);
      AnnouncedIsActual(t, actions[1..]);
      AnnouncedHead(w.mode, actions);
      assert t.mode == if actions[0].ChangeMode? then actions[0].mode else w.mode;
    }
  }

  lemma {:induction false} AnnouncedHead(mode: string, actions: seq<Action>)
    requires actions != []
    ensures Announced(mode, actions)
         == Announced(if actions[0].ChangeMode? then actions[0].mode else mode, actions[1..])
  {
    if |actions| > 1 {
      var g := actions[..|actions| - 1];
      AnnouncedHead(mode, g);
      assert g[1..] == actions[1..][..|actions| - 2];
    }
  }

  /** What a run without setters leads to when the provider announces its modes. */
  ghost predicate Candid(w: World) {
    exists mode, options, reported, actions ::
      NoBegin(actions) && Run(Start(mode, options, reported), actions) == Some(w)
      && Announces(Start(mode, options, reported), actions)
  }

  lemma CandidIsUntouched(w: World)
    requires Candid(w)
    ensures Untouched(w, w.mode)
  {
    hide Run, Announced, Boot, Announces, NoBegin;
    var mode, options, reported, actions :|
      NoBegin(actions) && Run(Start(mode, options, reported), actions) == Some(w)
      && Announces(Start(mode, options, reported), actions);
    AnnouncedIsActual(Start(mode, options, reported), actions);
    assert Announced(mode, actions) == w.mode;
  }

  /** So with a provider that announces its mode changes the test passes exactly for the provider's own mode. */
  lemma ModeTestIsRight(w: World, m: string)
    requires Candid(w) && !HasNote(w.wire)
    ensures InitialModeEqual(w.fence, m, false) <==> m == w.mode
  {
    hide Candid, Untouched, InitialModeEqual;
    CandidIsUntouched(w);
    ModeTestComparesAnnounced(w, w.mode, m);
  }
}
