/** How a call ends, read off the run that led there: what each outcome means and when a cancel frame is written. */
module PeerRuns {
  import opened Options
  import opened RpcMessages
  import opened PeerCalls
  import Decimal

  /** What the steps taken so far say about call `id`. */
  ghost predicate Told(h: seq<Action>, id: nat, c: Call, frames: seq<Frame>) {
    && (FailWrite(id) in h <==> c.phase == WriteFailed || c.phase == Returned(WriteError))
    && (Write(id) in h <==> PastWrite(c))
    && (TakeForCancel(id) in h <==> c.phase.Cancelling? || c.phase == Returned(Cancelled))
    && (FinishCancel(id, true) in h || FinishCancel(id, false) in h ==> c.phase == Returned(Cancelled))
    && (FinishCancel(id, true) in h && c.remover == Some(ByCancel) <==> frames == [Request(id), CancelRequest(id)])
    && (c.phase == Returned(PeerClosed) || c.got.Some? <==> SeeClosed(id) in h || Receive(id) in h)
    && (c.resolver.Holding? ==> TakeForResponse(c.resolver.msg) in h)
    && (c.got.Some? ==> TakeForResponse(c.got.value) in h && Receive(id) in h)
    && (forall m | m in c.chan.buffer :: TakeForResponse(m) in h)
  }

  /** No step has been about a call that is not there yet. */
  ghost predicate Untold(h: seq<Action>, id: nat) {
    && FailWrite(id) !in h && Write(id) !in h && TakeForCancel(id) !in h && SeeClosed(id) !in h && Receive(id) !in h
    && FinishCancel(id, true) !in h && FinishCancel(id, false) !in h
  }

  ghost predicate Traced(h: seq<Action>, s: State, id: nat) {
    if id in s.calls then Told(h, id, s.calls[id], FramesOf(s.wire, id)) else Untold(h, id)
  }

  lemma LocalTold(h: seq<Action>, s: State, id: nat, a: Action)
    requires Inv(s) && Enabled(s, a) && Target(a) == Some(id) && id in s.calls
    requires Told(h, id, s.calls[id], FramesOf(s.wire, id))
    ensures var l := LocalNext(id, s.calls[id], id in s.pending, a);
      Told(h + [a], id, l.call, FramesOf(s.wire, id) + l.frames)
  {
    hide FramesOf, Decimal.RpcId, InTable;
    assert CallOk(s, id);
  }

  lemma OtherTold(h: seq<Action>, id: nat, c: Call, frames: seq<Frame>, a: Action)
    requires Told(h, id, c, frames) && (Target(a) != Some(id) || a.TakeForResponse?)
    ensures Told(h + [a], id, c, frames)
  {
    hide Decimal.RpcId;
  }

  lemma DropTold(h: seq<Action>, s: State, id: nat)
    requires Inv(s) && id in s.pending && id in s.calls && Told(h, id, s.calls[id], FramesOf(s.wire, id))
    ensures Told(h + [DrainPending], id, Drop(s.calls[id]), FramesOf(s.wire, id))
  {
    hide FramesOf, Decimal.RpcId;
    assert CallOk(s, id);
  }

  lemma NewTold(h: seq<Action>, id: nat)
    requires Untold(h, id)
    ensures Told(h + [Allocate], id, NEW_CALL, [])
  {
  }

  lemma StepTraced(h: seq<Action>, s: State, a: Action, id: nat)
    requires Inv(s) && Enabled(s, a) && Traced(h, s, id)
    ensures Traced(h + [a], Next(s, a), id)
  {
    hide Told, LocalNext, FramesOf, Drop, Decimal.RpcId, CallOk;
    if id !in s.calls {
      if a.Allocate? && id == s.nextId + 1 {
        NoFrames(s.wire, id);
        NewTold(h, id);
      }
    } else if a == DrainPending && id in s.pending {
      DropTold(h, s, id);
    } else if Target(a) == Some(id) {
      LocalKeepsFrameOwners(s, id, a);
      FramesAfter(s.wire, LocalNext(id, s.calls[id], id in s.pending, a).frames, id, id);
      LocalTold(h, s, id, a);
    } else {
      OtherTold(h, id, s.calls[id], FramesOf(s.wire, id), a);
      OtherFrames(s, a, id);
    }
  }

  lemma LocalKeepsFrameOwners(s: State, id: nat, a: Action)
    requires Inv(s) && Enabled(s, a) && Target(a) == Some(id) && id in s.calls
    ensures var frames := LocalNext(id, s.calls[id], id in s.pending, a).frames;
      |frames| <= 1 && forall f | f in frames :: f.id == id
  {
    hide FramesOf, Decimal.RpcId;
  }

  lemma OtherFrames(s: State, a: Action, id: nat)
    requires Inv(s) && Enabled(s, a) && id in s.calls && Target(a) != Some(id) && !(a == DrainPending && id in s.pending)
    ensures var t := Next(s, a);
      id in t.calls && t.calls[id] == s.calls[id] && FramesOf(t.wire, id) == FramesOf(s.wire, id)
  {
    hide FramesOf, Decimal.RpcId, LocalNext, CallOk, Drop;
    if Target(a).Some? && Target(a).value in s.calls {
      var other := Target(a).value;
      LocalKeepsFrameOwners(s, other, a);
      FramesAfter(s.wire, LocalNext(other, s.calls[other], other in s.pending, a).frames, id, other);
    }
  }

  lemma {:induction false} RunTraced(h: seq<Action>, s: State, actions: seq<Action>, id: nat)
    requires Inv(s) && Traced(h, s, id) && Run(s, actions).Some?
    ensures Inv(Run(s, actions).value) && Traced(h + actions, Run(s, actions).value, id)
    decreases |actions|
  {
    hide Inv, Enabled, Next, Traced;
    if actions == [] {
      assert h + actions == h;
    } else {
      var a := actions[0];
      StepKeepsInv(s, a);
      StepTraced(h, s, a, id);
      assert (h + [a]) + actions[1..] == h + actions;
      RunTraced(h + [a], Next(s, a), actions[1..], id);
    }
  }

  /**
   Every outcome has its cause in the run, and no other: a write error the failed write, a cancellation the done
   context, a closed peer the closed signal or channel, and a result or a remote error a response under the call's
   own id, which was handed to the read loop in this run.
   */
  lemma CallEndsAsItWent(actions: seq<Action>, s: State, id: nat)
    requires Run(START, actions) == Some(s) && id in s.calls && s.calls[id].phase.Returned?
    ensures var outcome := s.calls[id].phase.outcome;
      && (outcome == WriteError <==> FailWrite(id) in actions)
      && (outcome == Cancelled <==> TakeForCancel(id) in actions)
      && (outcome == PeerClosed ==> s.closing != Open && (SeeClosed(id) in actions || Receive(id) in actions))
      && (outcome.Failed? ==> exists msg :: Response(actions, id, msg) && msg.error == Some(outcome.error))
      && (outcome.Answered? ==> exists msg :: Response(actions, id, msg) && msg.error == None && msg.result == outcome.result)
  {
    hide Told, LocalNext, Enabled, FramesOf;
    RunTraced([], START, actions, id);
    assert [] + actions == actions;
    assert CallOk(s, id);
    EndTold(actions, s, id);
    if s.calls[id].phase.outcome.Failed? || s.calls[id].phase.outcome.Answered? {
      assert Reachable(s);
      ResultIsOwn(s, id);
      assert Response(actions, id, s.calls[id].got.value);
    }
  }

  ghost predicate Response(actions: seq<Action>, id: nat, msg: RpcMessage) {
    Decimal.RpcId(msg.id) == Some(id) && TakeForResponse(msg) in actions && Receive(id) in actions
  }

  lemma EndTold(h: seq<Action>, s: State, id: nat)
    requires Inv(s) && id in s.calls && Told(h, id, s.calls[id], FramesOf(s.wire, id)) && s.calls[id].phase.Returned?
    ensures var c := s.calls[id];
      && (c.phase.outcome == WriteError <==> FailWrite(id) in h)
      && (c.phase.outcome == Cancelled <==> TakeForCancel(id) in h)
      && (c.phase.outcome == PeerClosed ==> s.closing != Open && (SeeClosed(id) in h || Receive(id) in h))
      && (c.got.Some? ==> TakeForResponse(c.got.value) in h && Receive(id) in h)
  {
    hide FramesOf, Decimal.RpcId;
    assert CallOk(s, id);
  }

  /**
   A call's frames exactly: its request once it has been written, and then a cancel frame if and only if its
   context was done while it was still in the table and writing that frame did not fail.
   */
  lemma FramesTellTheRun(actions: seq<Action>, s: State, id: nat)
    requires Run(START, actions) == Some(s) && id in s.calls
    ensures FramesOf(s.wire, id) ==
      if Write(id) !in actions then []
      else if FinishCancel(id, true) in actions && s.calls[id].remover == Some(ByCancel) then [Request(id), CancelRequest(id)]
      else [Request(id)]
  {
    hide LocalNext, Enabled, FramesOf, Decimal.RpcId;
    RunTraced([], START, actions, id);
    assert [] + actions == actions;
    assert CallOk(s, id);
  }
}
