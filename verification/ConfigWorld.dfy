/**
 The fence put together with a FIFO wire and a provider. The provider queues a notification atomically with
 every change of its own, and answers a setter only after all changes that setter caused; setters overlap
 freely, may fail, may change anything without saying so, and may be cancelled while their call is under way.
 */
module ConfigWorld {
  import opened Options
  import opened ConfigFence

  /** What the provider sends, in order. */
  datatype Msg = OptionsNote(options: seq<ConfigOption>) | ModeNote(mode: string) | Reply(id: nat, answer: Answer)

  /** A setter between beginConfigChange and endConfigChange. */
  datatype Phase =
    | Begun                        // request not written yet
    | Sent                         // the provider may act on it
    | Replied                      // answered, the answer is on the wire
    | Delivered(answer: Answer)    // the read loop handed the answer over, it is not installed yet
    | Settled                      // installed, failed or cancelled, endConfigChange not yet run

  datatype Setter = Setter(request: Request, ticket: Ticket, phase: Phase)

  datatype World = World(
    fence: Fence, setters: map<nat, Setter>, nextId: nat,
    mode: string, options: seq<ConfigOption>,   // the provider's own state
    abandoned: set<nat>,                        // cancelled requests the provider may still act on
    wire: seq<Msg>)

  datatype Action =
    | Begin(request: Request)
    | Send(id: nat)
    | FailToSend(id: nat)
    | Apply(id: nat, mode: string, options: seq<ConfigOption>)
    | AnswerWith(id: nat, answer: Answer)
    | ChangeOptions(mode: string, options: seq<ConfigOption>)
    | ChangeMode(mode: string, options: seq<ConfigOption>)
    | ReadNext
    | InstallAnswer(id: nat)
    | End(id: nat)
    | Cancel(id: nat)      // the call returns with the context's error, even if its answer is already there
    | Finish(id: nat)      // the provider is done with an abandoned request; nobody takes its answer

  predicate InPhase(w: World, id: nat, phase: Phase) {
    id in w.setters && w.setters[id].phase == phase
  }

  predicate InCall(phase: Phase) {
    phase.Sent? || phase.Replied? || phase.Delivered?
  }

  predicate Enabled(w: World, a: Action) {
    match a
    case Begin(_) => true
    case Send(id) => InPhase(w, id, Begun)
    case FailToSend(id) => InPhase(w, id, Begun)
    case Apply(id, _, _) => InPhase(w, id, Sent) || id in w.abandoned
    case AnswerWith(id, answer) => InPhase(w, id, Sent) && (answer.Snapshot? ==> answer.options == w.options)
    case ChangeOptions(_, _) => true
    case ChangeMode(mode, _) => mode != ""
    case ReadNext => w.wire != []
    case InstallAnswer(id) => id in w.setters && w.setters[id].phase.Delivered?
    case End(id) => InPhase(w, id, Settled)
    case Cancel(id) => id in w.setters && InCall(w.setters[id].phase)
    case Finish(id) => id in w.abandoned
  }

  function Move(w: World, id: nat, phase: Phase): World
    requires id in w.setters
  {
    w.(setters := w.setters[id := w.setters[id].(phase := phase)])
  }

  /** The read loop handles a notification in place and hands a reply to its caller, if that still waits. */
  function Dispatch(w: World, msg: Msg): World {
    match msg
    case OptionsNote(options) => w.(fence := NotifyOptions(w.fence, options))
    case ModeNote(mode) => w.(fence := NotifyMode(w.fence, mode))
    case Reply(id, answer) => if InPhase(w, id, Replied) then Move(w, id, Delivered(answer)) else w
  }

  function Next(w: World, a: Action): World
    requires Enabled(w, a)
  {
    match a
    case Begin(request) =>
      var (fence, ticket) := BeginChange(w.fence);
      w.(fence := fence, nextId := w.nextId + 1, setters := w.setters[w.nextId := Setter(request, ticket, Begun)])
    case Send(id) => Move(w, id, Sent)
    case FailToSend(id) => Move(w, id, Settled)
    case Apply(_, mode, options) => w.(mode := mode, options := options)
    case AnswerWith(id, answer) => Move(w, id, Replied).(wire := w.wire + [Reply(id, answer)])
    case ChangeOptions(mode, options) => w.(mode := mode, options := options, wire := w.wire + [OptionsNote(options)])
    case ChangeMode(mode, options) => w.(mode := mode, options := options, wire := w.wire + [ModeNote(mode)])
    case ReadNext => Dispatch(w.(wire := w.wire[1..]), w.wire[0])
    case InstallAnswer(id) =>
      var s := w.setters[id];
      Move(w, id, Settled).(fence := Install(w.fence, s.ticket, s.request, s.phase.answer))
    case End(id) =>
      w.(fence := if w.fence.pending > 0 then EndChange(w.fence) else w.fence,
         setters := map k | k in w.setters && k != id :: w.setters[k])
    case Cancel(id) =>
      var t := Move(w, id, Settled);
      if w.setters[id].phase.Sent? then t.(abandoned := t.abandoned + {id}) else t
    case Finish(id) => w.(abandoned := w.abandoned - {id})
  }

  // ---------- notes on the wire ----------

  predicate IsNote(msg: Msg) {
    !msg.Reply?
  }

  /** The index of the last notification on the wire, -1 if there is none. */
  function LastNote(wire: seq<Msg>): (k: int)
    ensures -1 <= k < |wire| && (k >= 0 ==> IsNote(wire[k]))
    ensures forall j | 0 <= j < |wire| && k < j :: !IsNote(wire[j])
  {
    if wire == [] then -1
    else if IsNote(wire[|wire| - 1]) then |wire| - 1
    else LastNote(wire[..|wire| - 1])
  }

  predicate HasNote(wire: seq<Msg>) {
    LastNote(wire) >= 0
  }

  lemma LastNoteAppend(wire: seq<Msg>, msg: Msg)
    ensures LastNote(wire + [msg]) == if IsNote(msg) then |wire| else LastNote(wire)
  {
    assert (wire + [msg])[..|wire|] == wire;
  }

  lemma LastNoteTail(wire: seq<Msg>)
    requires wire != []
    ensures LastNote(wire[1..]) == if LastNote(wire) >= 1 then LastNote(wire) - 1 else -1
  {
    hide LastNote;
    var tail, k, l := wire[1..], LastNote(wire), LastNote(wire[1..]);
    if l >= 0 { assert IsNote(wire[l + 1]); }
    if k >= 1 { assert tail[k - 1] == wire[k]; }
  }

  // ---------- what every run keeps, cancelled setters or not ----------

  /** Every setter between begin and end is counted. */
  ghost predicate CountOk(w: World) {
    && w.fence.pending == |w.setters|
    && (forall id | id in w.setters :: id < w.nextId && w.setters[id].ticket.version <= w.fence.version)
  }

  ghost predicate Undisturbed(w: World, id: nat)
    requires id in w.setters
  {
    w.setters[id].ticket.exclusive && w.setters[id].ticket.version == w.fence.version
  }

  /** A setter that saw no other begin and no notification is alone. */
  ghost predicate AloneOk(w: World) {
    forall id, other | id in w.setters && other in w.setters && Undisturbed(w, id) :: other == id
  }

  predicate IsReplyTo(msg: Msg, id: nat) {
    msg.Reply? && msg.id == id
  }

  /** A reply on the wire belongs to a request that was sent, and there is no second one. */
  ghost predicate ReplyOk(w: World) {
    && (forall j | 0 <= j < |w.wire| && w.wire[j].Reply? ::
          w.wire[j].id < w.nextId && !InPhase(w, w.wire[j].id, Begun) && !InPhase(w, w.wire[j].id, Sent))
    && (forall i, j | 0 <= i < j < |w.wire| && w.wire[i].Reply? && w.wire[j].Reply? :: w.wire[i].id != w.wire[j].id)
  }

  ghost predicate AnsweredBefore(w: World, id: nat, k: nat)
    requires k <= |w.wire|
  {
    exists j :: 0 <= j < k && IsReplyTo(w.wire[j], id)
  }

  /** The answer that a setter waits for is on the wire, among the first `k` messages. */
  ghost predicate RepliedOk(w: World, k: nat)
    requires k <= |w.wire|
  {
    forall id | InPhase(w, id, Replied) :: AnsweredBefore(w, id, k)
  }

  /** While the snapshot is trusted no setter is under way, and no mode notification is without a mode. */
  ghost predicate QuietOk(w: World) {
    && (w.fence.current ==> forall id | id in w.setters :: w.setters[id].phase.Settled?)
    && (forall k | 0 <= k < |w.wire| :: w.wire[k] != ModeNote(""))
  }

  ghost predicate Structural(w: World) {
    CountOk(w) && AloneOk(w) && ReplyOk(w) && RepliedOk(w, |w.wire|) && QuietOk(w)
  }

  function NewSetter(w: World, request: Request): Setter {
    Setter(request, Ticket(w.fence.version + 1, w.fence.pending == 0), Begun)
  }

  /** What a step does to the two counters and to the tickets. */
  lemma CountersStep(w: World, a: Action)
    requires Structural(w) && Enabled(w, a)
    ensures Next(w, a).fence.version >= w.fence.version && Next(w, a).nextId >= w.nextId
    ensures Next(w, a).fence.pending == w.fence.pending + (if a.Begin? then 1 else if a.End? then -1 else 0)
    ensures a.Begin? ==> Next(w, a).fence.version == w.fence.version + 1 && Next(w, a).nextId == w.nextId + 1
    ensures a.Begin? ==> Next(w, a).setters == w.setters[w.nextId := NewSetter(w, a.request)]
    ensures a.End? ==> Next(w, a).setters == map k | k in w.setters && k != a.id :: w.setters[k]
    ensures !a.Begin? && !a.End? ==> Next(w, a).setters.Keys == w.setters.Keys
    ensures !a.Begin? && !a.End? ==> forall id | id in w.setters :: Next(w, a).setters[id].ticket == w.setters[id].ticket
  {
    hide ReplyOk, RepliedOk, QuietOk, AloneOk, LastNote, RawConfigOf, Patched, ProjectAll;
    if a.End? { assert |w.setters| > 0; }
  }

  lemma CountStep(w: World, a: Action)
    requires Structural(w) && Enabled(w, a)
    ensures CountOk(Next(w, a))
  {
    hide ReplyOk, RepliedOk, QuietOk, AloneOk, Next;
    CountersStep(w, a);
    var t := Next(w, a);
    if a.Begin? {
      assert t.setters.Keys == w.setters.Keys + {w.nextId};
      assert |t.setters| == |w.setters| + 1;
    } else if a.End? {
      assert t.setters.Keys == w.setters.Keys - {a.id};
      assert |t.setters| == |w.setters| - 1;
    } else {
      assert |t.setters| == |t.setters.Keys|;
      assert |w.setters| == |w.setters.Keys|;
    }
  }

  lemma AloneStep(w: World, a: Action)
    requires Structural(w) && Enabled(w, a)
    ensures AloneOk(Next(w, a))
  {
    hide ReplyOk, RepliedOk, QuietOk, Next;
    CountersStep(w, a);
    var t := Next(w, a);
    forall id, other | id in t.setters && other in t.setters && Undisturbed(t, id) ensures other == id {
      if a.Begin? {
        assert |w.setters| == 0;
      } else {
        assert Undisturbed(w, id);
      }
    }
  }

  lemma ReplyStep(w: World, a: Action)
    requires Structural(w) && Enabled(w, a)
    ensures ReplyOk(Next(w, a))
  {
    hide CountOk, AloneOk, RepliedOk, QuietOk, LastNote, NotifyOptions, NotifyMode, Install, BeginChange, EndChange;
    NewIdsAreFresh(w);
    var t := Next(w, a);
    if a.AnswerWith? {
      assert a.id < w.nextId by { IdsAreKnown(w, a.id); }
    } else if a.ReadNext? {
      assert forall j | 0 <= j < |t.wire| :: t.wire[j] == w.wire[j + 1];
    } else if !a.ChangeOptions? && !a.ChangeMode? {
      assert t.wire == w.wire;
    }
  }

  lemma IdsAreKnown(w: World, id: nat)
    requires CountOk(w) && id in w.setters
    ensures id < w.nextId
  {
  }

  lemma NewIdsAreFresh(w: World)
    requires CountOk(w)
    ensures w.nextId !in w.setters
  {
  }

  lemma RepliedStep(w: World, a: Action)
    requires Structural(w) && Enabled(w, a)
    ensures RepliedOk(Next(w, a), |Next(w, a).wire|)
  {
    hide CountOk, AloneOk, QuietOk, LastNote, NotifyOptions, NotifyMode, Install, AnsweredBefore;
    var t := Next(w, a);
    forall id | InPhase(t, id, Replied) ensures AnsweredBefore(t, id, |t.wire|) {
      if a == ReadNext {
        assert InPhase(w, id, Replied) && AnsweredBefore(w, id, |w.wire|);
        StillAnswered(w, t, id, |w.wire|);
      } else if InPhase(w, id, Replied) {
        assert AnsweredBefore(w, id, |w.wire|);
        AnsweredOnLonger(w, t, id);
      } else {
        assert a.AnswerWith? && a.id == id && IsReplyTo(t.wire[|w.wire|], id);
        AnsweredAt(t, id, |w.wire|);
      }
    }
  }

  lemma AnsweredAt(w: World, id: nat, j: nat)
    requires j < |w.wire| && IsReplyTo(w.wire[j], id)
    ensures AnsweredBefore(w, id, |w.wire|)
  {
  }

  lemma AnsweredOnLonger(w: World, t: World, id: nat)
    requires AnsweredBefore(w, id, |w.wire|) && w.wire <= t.wire
    ensures AnsweredBefore(t, id, |t.wire|)
  {
    var j :| 0 <= j < |w.wire| && IsReplyTo(w.wire[j], id);
    assert t.wire[j] == w.wire[j];
  }

  /** After one read, a setter that still waits finds its answer one place nearer. */
  lemma StillAnswered(w: World, t: World, id: nat, k: nat)
    requires 0 < k <= |w.wire| && t == Next(w, ReadNext)
    requires InPhase(w, id, Replied) && AnsweredBefore(w, id, k) && InPhase(t, id, Replied)
    ensures AnsweredBefore(t, id, k - 1)
  {
    hide NotifyOptions, NotifyMode;
    var j :| 0 <= j < k && IsReplyTo(w.wire[j], id);
    assert j > 0;
    assert t.wire[j - 1] == w.wire[j];
  }

  lemma QuietStep(w: World, a: Action)
    requires Structural(w) && Enabled(w, a)
    ensures QuietOk(Next(w, a))
  {
    hide ReplyOk, RepliedOk, LastNote, RawConfigOf, Patched, ProjectAll;
    var t := Next(w, a);
    if t.fence.current && !w.fence.current {
      assert a.InstallAnswer? || a.ReadNext?;
      if a.ReadNext? {
        assert |w.setters| == 0;
      } else {
        assert Undisturbed(w, a.id);
      }
    }
  }

  lemma StepKeepsStructural(w: World, a: Action)
    requires Structural(w) && Enabled(w, a)
    ensures Structural(Next(w, a))
  {
    hide Next, Enabled, CountOk, AloneOk, ReplyOk, RepliedOk, QuietOk;
    CountStep(w, a);
    AloneStep(w, a);
    ReplyStep(w, a);
    RepliedStep(w, a);
    QuietStep(w, a);
  }

  // ---------- what keeps a trusted snapshot true ----------

  /** The read model does not tell the two apart. */
  predicate Same(a: seq<ConfigOption>, b: seq<ConfigOption>) {
    ProjectAll(a) == ProjectAll(b)
  }

  /** A reply that its setter still waits for. */
  predicate Live(w: World, j: nat)
    requires j < |w.wire|
  {
    w.wire[j].Reply? && InPhase(w, w.wire[j].id, Replied)
  }

  /** Some setter keeps the message at `k` from being read as idle: it may still change the provider, or waits behind. */
  ghost predicate Covered(w: World, k: nat) {
    (exists id :: InPhase(w, id, Sent)) || (exists j :: k < j < |w.wire| && Live(w, j))
  }

  /** The last notification reports options that are no longer the provider's. */
  predicate LastNoteIsStale(w: World) {
    var k := LastNote(w.wire);
    k >= 0 && w.wire[k].OptionsNote? && !Same(w.wire[k].options, w.options)
  }

  ghost predicate LastNoteOk(w: World) {
    LastNoteIsStale(w) ==> Covered(w, LastNote(w.wire))
  }

  /** Installing this answer would make its snapshot trusted. */
  ghost predicate Trustable(w: World, id: nat, answer: Answer) {
    id in w.setters && Undisturbed(w, id) && w.setters[id].request.SetOption? && answer.Snapshot?
  }

  /** With no notification under way, a snapshot that can still become trusted is the provider's. */
  ghost predicate AnswerOk(w: World) {
    !HasNote(w.wire) ==>
      && (forall id | id in w.setters && w.setters[id].phase.Delivered? && Trustable(w, id, w.setters[id].phase.answer) ::
            Same(w.setters[id].phase.answer.options, w.options))
      && (forall j | 0 <= j < |w.wire| && Live(w, j) && Trustable(w, w.wire[j].id, w.wire[j].answer) ::
            Same(w.wire[j].answer.options, w.options))
  }

  ghost predicate TruthOk(w: World) {
    w.fence.current && !HasNote(w.wire) ==> w.fence.options == ProjectAll(w.options)
  }

  ghost predicate Honest(w: World) {
    w.abandoned == {} && LastNoteOk(w) && AnswerOk(w) && TruthOk(w)
  }

  ghost predicate Inv(w: World) {
    Structural(w) && Honest(w)
  }

  /** A step that takes no message off the wire, adds none and leaves the provider alone. */
  lemma KeepsCover(w: World, t: World)
    requires LastNoteOk(w) && t.wire == w.wire && t.options == w.options
    requires forall id | InPhase(w, id, Sent) :: InPhase(t, id, Sent)
    requires forall id | InPhase(w, id, Replied) :: InPhase(t, id, Replied)
    ensures LastNoteOk(t)
  {
    hide LastNote, Same;
    if LastNoteIsStale(t) {
      if id :| InPhase(w, id, Sent) {
        assert InPhase(t, id, Sent);
      } else {
        var j :| LastNote(w.wire) < j < |w.wire| && Live(w, j);
        assert Live(t, j);
      }
    }
  }

  lemma LocalKeeps(w: World, a: Action)
    requires Inv(w) && Enabled(w, a)
    requires a.Begin? || a.Send? || a.FailToSend? || a.InstallAnswer? || a.End?
    ensures LastNoteOk(Next(w, a))
  {
    hide LastNote, Same, RawConfigOf, Patched, ProjectAll, LastNoteOk, AnswerOk, TruthOk;
    NewIdsAreFresh(w);
    KeepsCover(w, Next(w, a));
  }

  lemma LocalKeepsAnswers(w: World, a: Action)
    requires Inv(w) && Enabled(w, a)
    requires a.Begin? || a.Send? || a.FailToSend? || a.InstallAnswer? || a.End?
    ensures AnswerOk(Next(w, a)) && TruthOk(Next(w, a)) && Next(w, a).abandoned == {}
  {
    hide LastNote, Same, RawConfigOf, Patched, LastNoteOk, RepliedOk;
    var t := Next(w, a);
    if !HasNote(t.wire) {
      forall j | 0 <= j < |t.wire| && Live(t, j) && Trustable(t, t.wire[j].id, t.wire[j].answer)
        ensures Same(t.wire[j].answer.options, t.options)
      {
        assert Live(w, j) && Trustable(w, w.wire[j].id, w.wire[j].answer);
      }
      forall id | id in t.setters && t.setters[id].phase.Delivered? && Trustable(t, id, t.setters[id].phase.answer)
        ensures Same(t.setters[id].phase.answer.options, t.options)
      {
        assert Trustable(w, id, w.setters[id].phase.answer);
      }
      if t.fence.current && !w.fence.current { SnapshotIsTrue(w, a); }
    }
  }

  /** The snapshot that an install makes trusted is the provider's. */
  lemma SnapshotIsTrue(w: World, a: Action)
    requires Inv(w) && Enabled(w, a) && !HasNote(w.wire)
    requires a.Begin? || a.Send? || a.FailToSend? || a.InstallAnswer? || a.End?
    requires Next(w, a).fence.current && !w.fence.current
    ensures Next(w, a).fence.options == ProjectAll(Next(w, a).options)
  {
    hide LastNote, RawConfigOf, Patched, LastNoteOk, RepliedOk, ReplyOk;
    assert a.InstallAnswer?;
    assert Trustable(w, a.id, w.setters[a.id].phase.answer);
  }

  lemma ApplyKeeps(w: World, a: Action)
    requires Inv(w) && Enabled(w, a) && a.Apply?
    ensures Honest(Next(w, a))
  {
    hide LastNote, Same, RepliedOk;
    var t := Next(w, a);
    assert InPhase(w, a.id, Sent) && InPhase(t, a.id, Sent);
    forall id | id in t.setters && Undisturbed(t, id) ensures id == a.id {
      assert Undisturbed(w, id);
    }
  }

  lemma AnswerKeeps(w: World, a: Action)
    requires Inv(w) && Enabled(w, a) && a.AnswerWith?
    ensures Honest(Next(w, a))
  {
    hide LastNote, RepliedOk, RawConfigOf;
    var t := Next(w, a);
    LastNoteAppend(w.wire, Reply(a.id, a.answer));
    assert Live(t, |w.wire|);
    assert InPhase(w, a.id, Sent);
    forall id | id in t.setters && Undisturbed(t, id) ensures id == a.id {
      assert Undisturbed(w, id);
    }
    assert forall j | 0 <= j < |w.wire| && w.wire[j].Reply? :: t.wire[j].id != a.id;
  }

  lemma ChangeKeeps(w: World, a: Action)
    requires Inv(w) && Enabled(w, a) && (a.ChangeOptions? || a.ChangeMode?)
    ensures Honest(Next(w, a))
  {
    hide LastNote, Structural;
    var t := Next(w, a);
    LastNoteAppend(w.wire, t.wire[|w.wire|]);
  }

  lemma ReadKeepsCover(w: World)
    requires Inv(w) && w.wire != []
    ensures LastNoteOk(Next(w, ReadNext))
  {
    hide LastNote, Same, NotifyOptions, NotifyMode, AnswerOk, TruthOk, Structural;
    var t, k := Next(w, ReadNext), LastNote(w.wire);
    LastNoteTail(w.wire);
    if LastNoteIsStale(t) {
      assert k >= 1 && t.wire[k - 1] == w.wire[k];
      if id :| InPhase(w, id, Sent) {
        assert InPhase(t, id, Sent);
      } else {
        var j :| k < j < |w.wire| && Live(w, j);
        StaysLive(w, j);
      }
    }
  }

  /** Reading one message takes nobody's answer but the one read. */
  lemma StaysLive(w: World, j: nat)
    requires Structural(w) && 0 < j < |w.wire| && Live(w, j)
    ensures Live(Next(w, ReadNext), j - 1)
  {
    hide NotifyOptions, NotifyMode, CountOk, AloneOk, RepliedOk, QuietOk;
    assert Next(w, ReadNext).wire[j - 1] == w.wire[j];
  }

  lemma ReadNoteKeeps(w: World)
    requires Inv(w) && w.wire != [] && IsNote(w.wire[0])
    ensures AnswerOk(Next(w, ReadNext)) && TruthOk(Next(w, ReadNext))
  {
    hide LastNote, RawConfigOf, RepliedOk;
    var t := Next(w, ReadNext);
    LastNoteTail(w.wire);
    assert w.wire[0] != ModeNote("");
    if t.fence.current && !HasNote(t.wire) {
      assert w.wire[0].OptionsNote? && |w.setters| == 0;
      assert LastNote(w.wire) == 0;
      NothingCovers(w);
    }
  }

  lemma NothingCovers(w: World)
    requires |w.setters| == 0
    ensures !Covered(w, 0)
  {
  }

  lemma ReadReplyKeeps(w: World)
    requires Inv(w) && w.wire != [] && w.wire[0].Reply?
    ensures AnswerOk(Next(w, ReadNext)) && TruthOk(Next(w, ReadNext))
  {
    hide LastNote, Same, RepliedOk, LastNoteOk;
    var t := Next(w, ReadNext);
    LastNoteTail(w.wire);
    if !HasNote(t.wire) {
      forall j | 0 <= j < |t.wire| && Live(t, j) && Trustable(t, t.wire[j].id, t.wire[j].answer)
        ensures Same(t.wire[j].answer.options, t.options)
      {
        assert t.wire[j] == w.wire[j + 1];
        assert Live(w, j + 1) && Trustable(w, w.wire[j + 1].id, w.wire[j + 1].answer);
      }
      forall id | id in t.setters && t.setters[id].phase.Delivered? && Trustable(t, id, t.setters[id].phase.answer)
        ensures Same(t.setters[id].phase.answer.options, t.options)
      {
        if w.setters[id].phase.Delivered? {
          assert Trustable(w, id, w.setters[id].phase.answer);
        } else {
          assert Live(w, 0) && Trustable(w, w.wire[0].id, w.wire[0].answer);
        }
      }
    }
  }

  /** Every step but a cancellation keeps a world honest. */
  lemma StepKeepsInv(w: World, a: Action)
    requires Inv(w) && Enabled(w, a) && !a.Cancel?
    ensures Inv(Next(w, a))
  {
    hide Next, Structural, LastNoteOk, AnswerOk, TruthOk;
    StepKeepsStructural(w, a);
    match a
    case Apply(_, _, _) => ApplyKeeps(w, a);
    case AnswerWith(_, _) => AnswerKeeps(w, a);
    case ChangeOptions(_, _) => ChangeKeeps(w, a);
    case ChangeMode(_, _) => ChangeKeeps(w, a);
    case ReadNext =>
      ReadKeepsCover(w);
      if IsNote(w.wire[0]) { ReadNoteKeeps(w); } else { ReadReplyKeeps(w); }
      ReadLeavesAbandoned(w);
    case Finish(_) => assert w.abandoned == {};
    case _ => LocalKeeps(w, a); LocalKeepsAnswers(w, a);
  }

  lemma ReadLeavesAbandoned(w: World)
    requires w.wire != []
    ensures Next(w, ReadNext).abandoned == w.abandoned
  {
  }

  // ---------- runs ----------

  function Run(w: World, actions: seq<Action>): Option<World>
    decreases |actions|
  {
    if actions == [] then Some(w)
    else if Enabled(w, actions[0]) then Run(Next(w, actions[0]), actions[1..])
    else None
  }

  /** A session that just started: the read model holds what the provider reported, if it reported anything. */
  function Start(mode: string, options: seq<ConfigOption>, reported: bool): World {
    World(Boot(mode, if reported then Some(options) else None), map[], 0, mode, options, {}, [])
  }

  lemma StartIsOk(mode: string, options: seq<ConfigOption>, reported: bool)
    ensures Inv(Start(mode, options, reported))
  {
  }
}
