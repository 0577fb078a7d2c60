/**
 Outgoing calls of the JSON-RPC peer as a step machine. Every lock section, channel operation and frame write
 is one step, and a run is any sequence of enabled steps: all interleavings of callers, the read loop,
 cancelled contexts, failing writes and Close.
 */
module PeerCalls {
  import opened Options
  import opened RpcMessages
  import Decimal

  /** What callRaw returns. */
  datatype Outcome = WriteError | Cancelled | PeerClosed | Failed(error: RpcError) | Answered(result: string)

  /** Where a calling goroutine is inside callRaw. */
  datatype Phase =
    | Allocated                        // has an id, is not in the table yet
    | Registered                       // in the table, request not written
    | WriteFailed                      // write failed, not yet taken out of the table
    | Waiting                          // in the select
    | Cancelling(stillPending: bool)   // context done, entry removed, cancel frame not yet written
    | Returned(outcome: Outcome)

  /** Who took an entry out of the table. */
  datatype Remover = ByResponse | ByCancel | ByWriteFailure | ByClose

  /** Where resolvePending is with a channel it took out of the table. */
  datatype Resolver = Idle | Holding(msg: RpcMessage) | Sent | Done

  /** A reply channel of capacity one; `sends` and `closes` count what was ever done to it. */
  datatype Channel = Channel(buffer: seq<RpcMessage>, sends: nat, closes: nat)

  /** `removals` counts how often the call's entry was taken out of the table, `remover` is who did it last. */
  datatype Call = Call(
    phase: Phase, chan: Channel, resolver: Resolver, removals: nat, remover: Option<Remover>, got: Option<RpcMessage>)

  datatype Frame = Request(id: nat) | CancelRequest(id: nat)

  datatype Closing = Open | Signalled | Drained

  datatype State = State(nextId: nat, pending: set<nat>, calls: map<nat, Call>, closing: Closing, wire: seq<Frame>)

  const START := State(0, {}, map[], Open, [])
  const NEW_CALL := Call(Allocated, Channel([], 0, 0), Idle, 0, None, None)

  datatype Action =
    | Allocate
    | Register(id: nat)
    | Write(id: nat)
    | FailWrite(id: nat)
    | DropUnwritten(id: nat)
    | TakeForCancel(id: nat)
    | FinishCancel(id: nat, written: bool)
    | SeeClosed(id: nat)
    | Receive(id: nat)
    | TakeForResponse(msg: RpcMessage)
    | Send(id: nat)
    | CloseReply(id: nat)
    | SignalClose
    | DrainPending

  predicate InPhase(s: State, id: nat, phase: Phase) {
    id in s.calls && s.calls[id].phase == phase
  }

  predicate Readable(ch: Channel) {
    ch.buffer != [] || ch.closes > 0
  }

  predicate Enabled(s: State, a: Action) {
    match a
    case Allocate => true
    case Register(id) => InPhase(s, id, Allocated)
    case Write(id) => InPhase(s, id, Registered)
    case FailWrite(id) => InPhase(s, id, Registered)
    case DropUnwritten(id) => InPhase(s, id, WriteFailed)
    case TakeForCancel(id) => InPhase(s, id, Waiting)
    case FinishCancel(id, _) => id in s.calls && s.calls[id].phase.Cancelling?
    case SeeClosed(id) => InPhase(s, id, Waiting) && s.closing != Open
    case Receive(id) => InPhase(s, id, Waiting) && Readable(s.calls[id].chan)
    case TakeForResponse(_) => true
    case Send(id) => id in s.calls && s.calls[id].resolver.Holding?
    case CloseReply(id) => id in s.calls && s.calls[id].resolver.Sent?
    case SignalClose => s.closing == Open
    case DrainPending => s.closing == Signalled
  }

  /** One call, whether it is in the table, and the frames a step adds to the wire. */
  datatype Local = Local(call: Call, listed: bool, frames: seq<Frame>)

  function OutcomeOf(msg: RpcMessage): Outcome {
    if msg.error.Some? then Failed(msg.error.value) else Answered(msg.result)
  }

  /** delete(pending, id), which counts as a removal only when the entry was there. */
  function Removed(c: Call, listed: bool, who: Remover): Call {
    if listed then c.(removals := c.removals + 1, remover := Some(who)) else c
  }

  /** close(ch) by Close, for an entry it took out of the table. */
  function Drop(c: Call): Call {
    Removed(c, true, ByClose).(chan := c.chan.(closes := c.chan.closes + 1))
  }

  /** A step of one call or of the read loop on one call. */
  function LocalNext(id: nat, c: Call, listed: bool, a: Action): Local {
    match a
    case Register(_) => Local(c.(phase := Registered), true, [])
    case Write(_) => Local(c.(phase := Waiting), listed, [Request(id)])
    case FailWrite(_) => Local(c.(phase := WriteFailed), listed, [])
    case DropUnwritten(_) => Local(Removed(c, listed, ByWriteFailure).(phase := Returned(WriteError)), false, [])
    case TakeForCancel(_) => Local(Removed(c, listed, ByCancel).(phase := Cancelling(listed)), false, [])
    case FinishCancel(_, written) =>
      Local(c.(phase := Returned(Cancelled)), listed,
            if c.phase == Cancelling(true) && written then [CancelRequest(id)] else [])
    case SeeClosed(_) => Local(c.(phase := Returned(PeerClosed)), listed, [])
    case Receive(_) =>
      if c.chan.buffer == [] then Local(c.(phase := Returned(PeerClosed)), listed, [])
      else
        var msg := c.chan.buffer[0];
        var chan := c.chan.(buffer := c.chan.buffer[1..]);
        Local(c.(phase := Returned(OutcomeOf(msg)), chan := chan, got := Some(msg)), listed, [])
    case TakeForResponse(msg) =>
      if listed then Local(Removed(c, listed, ByResponse).(resolver := Holding(msg)), false, []) else Local(c, listed, [])
    case Send(_) =>
      if c.resolver.Holding? then
        var chan := c.chan.(buffer := c.chan.buffer + [c.resolver.msg], sends := c.chan.sends + 1);
        Local(c.(resolver := Sent, chan := chan), listed, [])
      else Local(c, listed, [])
    case CloseReply(_) => Local(c.(resolver := Done, chan := c.chan.(closes := c.chan.closes + 1)), listed, [])
    case _ => Local(c, listed, [])
  }

  /** Which call a step is about; closing is about all of them, allocation makes a new one. */
  function Target(a: Action): Option<nat> {
    match a
    case Allocate => None
    case TakeForResponse(msg) => Decimal.RpcId(msg.id)
    case SignalClose => None
    case DrainPending => None
    case _ => Some(a.id)
  }

  function Next(s: State, a: Action): State
    requires Enabled(s, a)
  {
    match a
    case Allocate => s.(nextId := s.nextId + 1, calls := s.calls[s.nextId + 1 := NEW_CALL])
    case SignalClose => s.(closing := Signalled)
    case DrainPending =>
      s.(closing := Drained, pending := {},
         calls := map id | id in s.calls :: if id in s.pending then Drop(s.calls[id]) else s.calls[id])
    case _ =>
      if Target(a).None? || Target(a).value !in s.calls then s
      else
        var id := Target(a).value;
        var l := LocalNext(id, s.calls[id], id in s.pending, a);
        s.(calls := s.calls[id := l.call], wire := s.wire + l.frames,
           pending := if l.listed then s.pending + {id} else s.pending - {id})
  }

  /** `after` is what the step makes of `before`. */
  predicate Stepped(before: State, a: Action, after: State) {
    Enabled(before, a) && after == Next(before, a)
  }

  /** The frames of one call, in the order they were written. */
  function FramesOf(wire: seq<Frame>, id: nat): seq<Frame> {
    if wire == [] then []
    else
      var last := wire[|wire| - 1];
      FramesOf(wire[..|wire| - 1], id) + (if last.id == id then [last] else [])
  }

  // ---------- the invariant ----------

  predicate PastWrite(c: Call) {
    c.phase.Waiting? || c.phase.Cancelling? || (c.phase.Returned? && !c.phase.outcome.WriteError?)
  }

  predicate InTable(c: Call) {
    c.phase.Registered? || c.phase.WriteFailed? || c.phase.Waiting? || c.phase == Returned(PeerClosed)
  }

  /** The reply channel and its owner. */
  predicate ChannelOk(id: nat, c: Call) {
    && c.removals == (if c.remover.Some? then 1 else 0)
    && (c.resolver != Idle ==> c.remover == Some(ByResponse))
    && (c.resolver.Holding? ==> Decimal.RpcId(c.resolver.msg.id) == Some(id))
    && c.chan.sends == (if c.resolver.Sent? || c.resolver.Done? then 1 else 0)
    && c.chan.closes == (if c.resolver.Done? || c.remover == Some(ByClose) then 1 else 0)
    && |c.chan.buffer| + (if c.got.Some? then 1 else 0) == c.chan.sends
    && (c.chan.buffer != [] ==> Decimal.RpcId(c.chan.buffer[0].id) == Some(id))
    && (c.remover == Some(ByResponse) <==> c.resolver != Idle)
  }

  /** What the caller got. */
  predicate OutcomeOk(id: nat, c: Call) {
    && (c.got.Some? ==> c.phase == Returned(OutcomeOf(c.got.value)) && Decimal.RpcId(c.got.value.id) == Some(id))
    && (c.phase.Returned? && (c.phase.outcome.Answered? || c.phase.outcome.Failed?) ==> c.got.Some?)
    && (c.phase.Cancelling? && c.phase.stillPending <==> c.phase.Cancelling? && c.remover == Some(ByCancel))
    && (c.remover == Some(ByCancel) ==> c.phase.Cancelling? || c.phase == Returned(Cancelled))
    && (c.remover == Some(ByWriteFailure) ==> c.phase == Returned(WriteError))
  }

  predicate TableOk(id: nat, c: Call, pending: bool, closing: Closing) {
    && (pending ==> c.removals == 0 && InTable(c))
    && (!pending && !c.phase.Allocated? ==> c.removals == 1)
    && (c.phase.Allocated? ==> !pending && c.removals == 0)
    && (c.remover == Some(ByClose) ==> closing == Drained)
    && (c.phase == Returned(PeerClosed) ==> closing != Open)
  }

  predicate HasCancelFrame(id: nat, c: Call, frames: seq<Frame>) {
    frames == [Request(id), CancelRequest(id)] && c.remover == Some(ByCancel) && c.phase == Returned(Cancelled)
  }

  predicate FramesOk(id: nat, c: Call, frames: seq<Frame>) {
    && (PastWrite(c) ==> frames == [Request(id)] || HasCancelFrame(id, c, frames))
    && (!PastWrite(c) ==> frames == [])
  }

  predicate Ok(id: nat, c: Call, listed: bool, closing: Closing, frames: seq<Frame>) {
    ChannelOk(id, c) && OutcomeOk(id, c) && TableOk(id, c, listed, closing) && FramesOk(id, c, frames)
  }

  predicate CallOk(s: State, id: nat)
    requires id in s.calls
  {
    Ok(id, s.calls[id], id in s.pending, s.closing, FramesOf(s.wire, id))
  }

  predicate Inv(s: State) {
    && (forall id | id in s.calls :: id <= s.nextId && CallOk(s, id))
    && s.pending <= s.calls.Keys
    && (forall f | f in s.wire :: f.id in s.calls)
  }

  lemma {:induction false} NoFrames(wire: seq<Frame>, id: nat)
    requires forall f | f in wire :: f.id != id
    ensures FramesOf(wire, id) == []
  {
    if wire != [] { NoFrames(wire[..|wire| - 1], id); }
  }

  lemma FramesAfter(wire: seq<Frame>, frames: seq<Frame>, id: nat, target: nat)
    requires |frames| <= 1 && forall f | f in frames :: f.id == target
    ensures FramesOf(wire + frames, id) == if id == target then FramesOf(wire, id) + frames else FramesOf(wire, id)
  {
    if |frames| == 1 {
      assert (wire + frames)[..|wire|] == wire;
    } else {
      assert wire + frames == wire;
    }
  }

  lemma LocalKeepsChannel(s: State, id: nat, a: Action)
    requires Enabled(s, a) && Target(a) == Some(id) && id in s.calls
    requires Ok(id, s.calls[id], id in s.pending, s.closing, FramesOf(s.wire, id))
    ensures var l := LocalNext(id, s.calls[id], id in s.pending, a);
      ChannelOk(id, l.call)
  {
    hide FramesOf, FramesOk, Decimal.RpcId;
  }

  lemma LocalKeepsOutcome(s: State, id: nat, a: Action)
    requires Enabled(s, a) && Target(a) == Some(id) && id in s.calls
    requires Ok(id, s.calls[id], id in s.pending, s.closing, FramesOf(s.wire, id))
    ensures var l := LocalNext(id, s.calls[id], id in s.pending, a);
      OutcomeOk(id, l.call)
  {
    hide FramesOf, FramesOk, Decimal.RpcId;
  }

  lemma LocalKeepsTable(s: State, id: nat, a: Action)
    requires Enabled(s, a) && Target(a) == Some(id) && id in s.calls
    requires Ok(id, s.calls[id], id in s.pending, s.closing, FramesOf(s.wire, id))
    ensures var l := LocalNext(id, s.calls[id], id in s.pending, a);
      TableOk(id, l.call, l.listed, s.closing)
  {
    hide FramesOf, FramesOk, Decimal.RpcId;
  }

  lemma LocalKeepsFrames(s: State, id: nat, a: Action)
    requires Enabled(s, a) && Target(a) == Some(id) && id in s.calls
    requires Ok(id, s.calls[id], id in s.pending, s.closing, FramesOf(s.wire, id))
    ensures var l := LocalNext(id, s.calls[id], id in s.pending, a);
      FramesOk(id, l.call, FramesOf(s.wire, id) + l.frames)
      && |l.frames| <= 1 && forall f | f in l.frames :: f.id == id
  {
    hide FramesOf, ChannelOk, Decimal.RpcId;
  }

  /** One call keeps its invariant under each of its own steps. */
  lemma LocalKeepsOk(s: State, id: nat, a: Action)
    requires Enabled(s, a) && Target(a) == Some(id) && id in s.calls
    requires Ok(id, s.calls[id], id in s.pending, s.closing, FramesOf(s.wire, id))
    ensures var l := LocalNext(id, s.calls[id], id in s.pending, a);
      Ok(id, l.call, l.listed, s.closing, FramesOf(s.wire, id) + l.frames)
      && |l.frames| <= 1 && forall f | f in l.frames :: f.id == id
  {
    hide FramesOf, LocalNext, ChannelOk, OutcomeOk, TableOk, FramesOk, Decimal.RpcId, Enabled, Target;
    LocalKeepsChannel(s, id, a);
    LocalKeepsOutcome(s, id, a);
    LocalKeepsTable(s, id, a);
    LocalKeepsFrames(s, id, a);
  }

  lemma DropKeepsOk(id: nat, c: Call, closing: Closing, frames: seq<Frame>)
    requires Ok(id, c, true, closing, frames)
    ensures Ok(id, Drop(c), false, Drained, frames)
  {
    hide Decimal.RpcId;
  }

  lemma ClosingKeepsOk(id: nat, c: Call, listed: bool, closing: Closing, frames: seq<Frame>)
    requires Ok(id, c, listed, closing, frames)
    ensures closing == Open ==> Ok(id, c, listed, Signalled, frames)
    ensures !listed ==> Ok(id, c, false, Drained, frames)
  {
    hide Decimal.RpcId;
  }

  lemma StepKeepsCall(s: State, a: Action, id: nat)
    requires Inv(s) && Enabled(s, a) && id in s.calls
    ensures id in Next(s, a).calls && CallOk(Next(s, a), id)
  {
    hide FramesOf, Decimal.RpcId, LocalNext, Ok, Drop;
    assert CallOk(s, id);
    if a.SignalClose? || a.DrainPending? {
      ClosingKeepsOk(id, s.calls[id], id in s.pending, s.closing, FramesOf(s.wire, id));
      if id in s.pending { DropKeepsOk(id, s.calls[id], s.closing, FramesOf(s.wire, id)); }
    } else if Target(a).Some? && Target(a).value in s.calls {
      var target := Target(a).value;
      assert CallOk(s, target);
      LocalKeepsOk(s, target, a);
      FramesAfter(s.wire, LocalNext(target, s.calls[target], target in s.pending, a).frames, id, target);
    }
  }

  lemma StepKeepsInv(s: State, a: Action)
    requires Inv(s) && Enabled(s, a)
    ensures Inv(Next(s, a))
  {
    hide FramesOf, Decimal.RpcId, LocalNext, CallOk, Drop;
    var t := Next(s, a);
    forall id | id in t.calls ensures id <= t.nextId && CallOk(t, id) {
      if id in s.calls {
        StepKeepsCall(s, a, id);
      } else {
        NoFrames(s.wire, id);
        NewCallIsOk(id, s.closing);
        assert CallOk(t, id) by { NewCall(t, id); }
      }
    }
    if Target(a).Some? && Target(a).value in s.calls {
      assert CallOk(s, Target(a).value);
      assert Ok(Target(a).value, s.calls[Target(a).value], Target(a).value in s.pending, s.closing,
                FramesOf(s.wire, Target(a).value)) by { CallIsOk(s, Target(a).value); }
      LocalKeepsOk(s, Target(a).value, a);
    }
  }

  lemma CallIsOk(s: State, id: nat)
    requires id in s.calls && CallOk(s, id)
    ensures Ok(id, s.calls[id], id in s.pending, s.closing, FramesOf(s.wire, id))
  {
  }

  lemma NewCallIsOk(id: nat, closing: Closing)
    ensures Ok(id, NEW_CALL, false, closing, [])
  {
  }

  lemma NewCall(s: State, id: nat)
    requires id in s.calls && s.calls[id] == NEW_CALL && id !in s.pending && FramesOf(s.wire, id) == []
    ensures CallOk(s, id)
  {
    NewCallIsOk(id, s.closing);
  }

  // ---------- runs ----------

  function Run(s: State, actions: seq<Action>): Option<State>
    decreases |actions|
  {
    if actions == [] then Some(s)
    else if Enabled(s, actions[0]) then Run(Next(s, actions[0]), actions[1..])
    else None
  }

  ghost predicate Reachable(s: State) {
    exists actions :: Run(START, actions) == Some(s)
  }

  lemma {:induction false} RunKeepsInv(s: State, actions: seq<Action>)
    requires Inv(s) && Run(s, actions).Some?
    ensures Inv(Run(s, actions).value)
    decreases |actions|
  {
    if actions != [] {
      StepKeepsInv(s, actions[0]);
      RunKeepsInv(Next(s, actions[0]), actions[1..]);
    }
  }

  lemma ReachableInv(s: State)
    requires Reachable(s)
    ensures Inv(s)
  {
    var actions :| Run(START, actions) == Some(s);
    RunKeepsInv(START, actions);
  }

  // ---------- the theorems ----------

  /**
   Each reply channel is taken out of the table by at most one party, gets at most one message and is closed
   at most once; no send meets a full or closed channel and no close meets a closed one, so nothing panics
   and the read loop never blocks on a reply.
   */
  lemma ChannelDiscipline(s: State, id: nat)
    requires Reachable(s) && id in s.calls
    ensures var c := s.calls[id];
      c.removals <= 1 && c.chan.sends <= 1 && c.chan.closes <= 1
      && (Enabled(s, Send(id)) ==> c.chan.buffer == [] && c.chan.closes == 0)
      && (Enabled(s, CloseReply(id)) ==> c.chan.closes == 0)
      && (id in s.pending ==> c.chan == Channel([], 0, 0) && c.removals == 0)
  {
    ReachableInv(s);
    assert CallOk(s, id);
  }

  /**
   A call returns a result or a remote error only from a response that carries its own id: the response's error if
   it has one, else its result.
   */
  lemma ResultIsOwn(s: State, id: nat)
    requires Reachable(s) && id in s.calls && s.calls[id].phase.Returned?
    requires s.calls[id].phase.outcome.Answered? || s.calls[id].phase.outcome.Failed?
    ensures var got := s.calls[id].got;
      && got.Some? && Decimal.RpcId(got.value.id) == Some(id) && s.calls[id].remover == Some(ByResponse)
      && (got.value.error.Some? ==> s.calls[id].phase.outcome == Failed(got.value.error.value))
      && (got.value.error.None? ==> s.calls[id].phase.outcome == Answered(got.value.result))
  {
    ReachableInv(s);
    assert CallOk(s, id);
  }

  /** At most one cancel frame per call, after its request frame, and only when the cancellation removed the entry. */
  lemma CancelFrames(s: State, id: nat)
    requires Reachable(s) && id in s.calls
    ensures var frames := FramesOf(s.wire, id);
      frames <= [Request(id), CancelRequest(id)]
      && (|frames| == 2 ==> s.calls[id].remover == Some(ByCancel) && s.calls[id].phase == Returned(Cancelled))
  {
    ReachableInv(s);
    assert CallOk(s, id);
  }

  /**
   No lost wake-up: a waiting call is still in the table, or its response is on the way to its channel, or its
   channel can be read. Once the peer is closed every waiting call can return at once.
   */
  lemma WaitingIsNeverStuck(s: State, id: nat)
    requires Reachable(s) && InPhase(s, id, Waiting)
    ensures id in s.pending || Enabled(s, Send(id)) || Enabled(s, Receive(id))
    ensures s.closing != Open ==> Enabled(s, SeeClosed(id))
    ensures s.closing == Open ==> s.calls[id].removals == 0 || s.calls[id].remover == Some(ByResponse)
  {
    hide Reachable, FramesOf, FramesOk, OutcomeOf;
    ReachableInv(s);
    assert CallOk(s, id);
    var c := s.calls[id];
    if id !in s.pending {
      match c.remover.value
      case ByResponse => assert !c.resolver.Holding? ==> |c.chan.buffer| == 1;
      case _ =>
    }
  }

  lemma PendingAreCalls(s: State)
    requires Inv(s)
    ensures s.pending <= s.calls.Keys
  {
  }

  /** An echo of a call's id, bare or quoted, reaches exactly that call while it is in the table. */
  lemma EchoReachesItsCall(s: State, id: nat, msg: RpcMessage)
    requires Reachable(s) && id in s.pending && id < Decimal.INT64_LIMIT
    requires msg.id == Decimal.ToDecimal(id) || msg.id == "\"" + Decimal.ToDecimal(id) + "\""
    ensures var t := Next(s, TakeForResponse(msg));
      id in t.calls && t.calls[id].resolver == Holding(msg) && t.pending == s.pending - {id}
      && t.calls.Keys == s.calls.Keys && forall other | other in s.calls && other != id :: t.calls[other] == s.calls[other]
  {
    hide Decimal.ToDecimal, Decimal.RpcId, Inv, Reachable;
    ReachableInv(s);
    PendingAreCalls(s);
    var text := Decimal.ToDecimal(id);
    Decimal.EchoResolves(id, "", "");
    assert "" + text + "" == text;
    assert "" + ("\"" + text + "\"") + "" == "\"" + text + "\"";
  }

  /** A duplicate, late or foreign response changes nothing. */
  lemma StrayResponseIsDropped(s: State, msg: RpcMessage)
    requires Decimal.RpcId(msg.id).None? || Decimal.RpcId(msg.id).value !in s.pending
    ensures Next(s, TakeForResponse(msg)) == s
  {
  }
}
