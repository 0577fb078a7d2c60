/**
 The peer's call table as the class it is in rpc.go. Each method is one lock section or channel operation and
 is proved to perform the corresponding step of PeerCalls; what sending and closing demand of a Go channel is
 a precondition that the protocol's invariant discharges.
 */
module PeerTable {
  import opened Options
  import opened RpcMessages
  import opened PeerCalls
  import Decimal

  /** A Go channel of capacity one. Sending needs room on an open channel, closing needs an open one. */
  class ReplyChannel {
    ghost const owner: nat
    var buffer: seq<RpcMessage>
    var closed: bool

    constructor (ghost owner: nat)
      ensures buffer == [] && !closed && this.owner == owner
    {
      this.owner := owner;
      buffer, closed := [], false;
    }

    method Send(msg: RpcMessage)
      requires !closed && buffer == []
      modifies this
      ensures buffer == [msg] && !closed
    {
      buffer := [msg];
    }

    method Close()
      requires !closed
      modifies this
      ensures closed && buffer == old(buffer)
    {
      closed := true;
    }

    method Receive() returns (msg: Option<RpcMessage>)
      requires buffer != [] || closed
      modifies this
      ensures closed == old(closed)
      ensures old(buffer) == [] ==> msg == None && buffer == []
      ensures old(buffer) != [] ==> msg == Some(old(buffer)[0]) && buffer == old(buffer)[1..]
    {
      if buffer == [] {
        return None;
      }
      msg, buffer := Some(buffer[0]), buffer[1..];
    }
  }

  // ---------- what a step does to the table and the channels ----------

  ghost predicate SameExcept(s: State, t: State, id: nat) {
    && t.calls.Keys == s.calls.Keys && t.nextId == s.nextId && t.closing == s.closing
    && forall k | k in s.calls && k != id :: t.calls[k].chan == s.calls[k].chan
  }

  lemma PendingHasCalls(s: State)
    requires Inv(s)
    ensures s.pending <= s.calls.Keys
    ensures forall id | id in s.pending :: s.calls[id].chan.closes == 0
  {
    forall id | id in s.pending ensures s.calls[id].chan.closes == 0 {
      assert CallOk(s, id);
    }
  }

  lemma ReplyChannelIsReady(s: State, id: nat)
    requires Inv(s) && id in s.calls
    ensures s.calls[id].resolver.Holding? ==> s.calls[id].chan.buffer == [] && s.calls[id].chan.closes == 0
    ensures s.calls[id].resolver.Sent? ==> s.calls[id].chan.closes == 0
  {
    assert CallOk(s, id);
  }

  /** A step of one call that leaves the other calls' channels alone. */
  lemma LocalEffect(s: State, id: nat, a: Action) returns (t: State)
    requires Inv(s) && Enabled(s, a) && Target(a) == Some(id) && id in s.calls
    requires !a.Allocate? && !a.SignalClose? && !a.DrainPending?
    ensures Stepped(s, a, t) && Inv(t) && SameExcept(s, t, id)
    ensures var l := LocalNext(id, s.calls[id], id in s.pending, a);
      t.calls[id] == l.call && t.wire == s.wire + l.frames
      && t.pending == if l.listed then s.pending + {id} else s.pending - {id}
  {
    hide Inv, Decimal.RpcId, LocalNext, FramesOf;
    StepKeepsInv(s, a);
    t := Next(s, a);
  }

  lemma RegisterEffect(s: State, id: nat) returns (t: State)
    requires Inv(s) && InPhase(s, id, Allocated)
    ensures Stepped(s, Register(id), t) && Inv(t) && id in s.calls && SameExcept(s, t, id)
    ensures t.calls[id].chan == s.calls[id].chan && t.pending == s.pending + {id}
    ensures InPhase(t, id, Registered) && t.wire == s.wire
  {
    hide Inv, Stepped, Next, FramesOf;
    t := LocalEffect(s, id, Register(id));
  }

  /** writeMessage of the request, which fails or not. */
  lemma WriteEffect(s: State, id: nat, written: bool) returns (t: State)
    requires Inv(s) && InPhase(s, id, Registered)
    ensures Stepped(s, WriteOf(id, written), t) && Inv(t) && SameExcept(s, t, id)
    ensures t.calls[id].chan == s.calls[id].chan && t.pending == s.pending
    ensures InPhase(t, id, if written then Waiting else WriteFailed)
    ensures t.wire == s.wire + if written then [Request(id)] else []
  {
    hide Inv, Stepped, Next, FramesOf;
    t := LocalEffect(s, id, WriteOf(id, written));
    assert if id in s.pending then s.pending + {id} == s.pending else s.pending - {id} == s.pending;
  }

  function WriteOf(id: nat, written: bool): Action {
    if written then Write(id) else FailWrite(id)
  }

  lemma DeleteEffect(s: State, id: nat, a: Action) returns (t: State)
    requires Inv(s) && (a == DropUnwritten(id) || a == TakeForCancel(id))
    requires InPhase(s, id, if a.DropUnwritten? then WriteFailed else Waiting)
    ensures Stepped(s, a, t) && Inv(t) && id in s.calls && SameExcept(s, t, id)
    ensures t.calls[id].chan == s.calls[id].chan && t.pending == s.pending - {id} && t.wire == s.wire
    ensures InPhase(t, id, if a.DropUnwritten? then Returned(WriteError) else Cancelling(id in s.pending))
  {
    hide Inv, Stepped, Next, FramesOf;
    t := LocalEffect(s, id, a);
  }

  lemma TakeEffect(s: State, msg: RpcMessage, id: nat) returns (t: State)
    requires Inv(s) && Decimal.RpcId(msg.id) == Some(id) && id in s.pending
    ensures Stepped(s, TakeForResponse(msg), t) && Inv(t) && id in s.calls && SameExcept(s, t, id)
    ensures t.calls[id].chan == s.calls[id].chan && t.pending == s.pending - {id}
    ensures t.calls[id].resolver == Holding(msg)
  {
    hide Inv, Stepped, Next, FramesOf, Decimal.RpcId;
    PendingHasCalls(s);
    t := LocalEffect(s, id, TakeForResponse(msg));
  }

  lemma StrayEffect(s: State, msg: RpcMessage)
    requires Decimal.RpcId(msg.id).None? || Decimal.RpcId(msg.id).value !in s.pending
    ensures Stepped(s, TakeForResponse(msg), s)
  {
    StrayResponseIsDropped(s, msg);
  }

  lemma SendEffect(s: State, id: nat, msg: RpcMessage) returns (t: State)
    requires Inv(s) && id in s.calls && s.calls[id].resolver == Holding(msg)
    ensures Stepped(s, Send(id), t) && Inv(t) && SameExcept(s, t, id) && t.pending == s.pending
    ensures s.calls[id].chan.buffer == [] && s.calls[id].chan.closes == 0
    ensures t.calls[id].chan.buffer == [msg] && t.calls[id].chan.closes == 0 && t.calls[id].resolver == Sent
  {
    hide Inv, Stepped, Next, FramesOf;
    ReplyChannelIsReady(s, id);
    assert [] + [msg] == [msg];
    t := LocalEffect(s, id, Send(id));
    assert if id in s.pending then s.pending + {id} == s.pending else s.pending - {id} == s.pending;
  }

  lemma CloseReplyEffect(s: State, id: nat) returns (t: State)
    requires Inv(s) && id in s.calls && s.calls[id].resolver == Sent
    ensures Stepped(s, CloseReply(id), t) && Inv(t) && SameExcept(s, t, id) && t.pending == s.pending
    ensures s.calls[id].chan.closes == 0
    ensures t.calls[id].chan.buffer == s.calls[id].chan.buffer && t.calls[id].chan.closes == 1
  {
    hide Inv, Stepped, Next, FramesOf;
    ReplyChannelIsReady(s, id);
    t := LocalEffect(s, id, CloseReply(id));
    assert if id in s.pending then s.pending + {id} == s.pending else s.pending - {id} == s.pending;
  }

  lemma AllocateEffect(s: State) returns (t: State)
    requires Inv(s)
    ensures Stepped(s, Allocate, t) && Inv(t) && s.nextId + 1 !in s.calls
    ensures t == s.(nextId := s.nextId + 1, calls := s.calls[s.nextId + 1 := NEW_CALL])
  {
    hide CallOk;
    StepKeepsInv(s, Allocate);
    t := Next(s, Allocate);
  }

  /** The once-guarded part of Close: the signal, then the table, every channel of which is closed. */
  lemma DrainEffect(s: State) returns (t: State)
    requires Inv(s) && s.closing == Signalled
    ensures Stepped(s, DrainPending, t) && Inv(t)
    ensures t.calls.Keys == s.calls.Keys && t.nextId == s.nextId && t.closing == Drained && t.pending == {}
    ensures forall k | k in s.calls :: t.calls[k].chan.buffer == s.calls[k].chan.buffer
    ensures forall k | k in s.calls :: t.calls[k].chan.closes == s.calls[k].chan.closes + (if k in s.pending then 1 else 0)
    ensures forall k | k in s.pending :: k in s.calls && s.calls[k].chan.closes == 0
  {
    hide Inv, Decimal.RpcId, LocalNext, FramesOf;
    StepKeepsInv(s, DrainPending);
    PendingHasCalls(s);
    t := Next(s, DrainPending);
  }

  lemma SignalEffect(s: State) returns (t: State)
    requires Inv(s) && s.closing == Open
    ensures Stepped(s, SignalClose, t) && Inv(t) && t == s.(closing := Signalled)
  {
    hide Inv, LocalNext, FramesOf;
    StepKeepsInv(s, SignalClose);
    t := Next(s, SignalClose);
  }

  class Peer {
    var nextID: nat
    var pending: map<nat, ReplyChannel>
    var closed: bool

    // The protocol state the fields stand for, and the channels of all calls ever made.
    ghost var state: State
    ghost var channels: map<nat, ReplyChannel>

    ghost predicate Valid()
      reads this, channels.Values
    {
      && Inv(state)
      && nextID == state.nextId
      && pending.Keys == state.pending
      && (forall id | id in pending :: id in channels && pending[id] == channels[id])
      && channels.Keys == state.calls.Keys
      && (forall id | id in channels :: channels[id].owner == id && Agrees(channels[id], state.calls[id].chan))
      && (closed <==> state.closing != Open)
    }

    ghost predicate Agrees(ch: ReplyChannel, model: Channel)
      reads ch
    {
      ch.buffer == model.buffer && (ch.closed <==> model.closes > 0)
    }

    constructor ()
      ensures Valid() && state == START
    {
      nextID, pending, closed := 0, map[], false;
      state, channels := START, map[];
    }

    /** nextID.Add(1) and make(chan rpcMessage, 1) */
    method Enter() returns (id: nat, ch: ReplyChannel)
      requires Valid()
      modifies this
      ensures Valid() && Stepped(old(state), Allocate, state)
      ensures id == old(nextID) + 1 == nextID && id !in old(channels) && fresh(ch) && channels == old(channels)[id := ch]
      ensures InPhase(state, id, Allocated) && state.wire == old(state.wire) && pending == old(pending) && id !in pending
    {
      hide Inv, Stepped;
      ghost var next := AllocateEffect(state);
      id := nextID + 1;
      ch := new ReplyChannel(id);
      nextID := id;
      channels := channels[id := ch];
      state := next;
    }

    /** p.pending[idValue] = ch */
    method Add(id: nat, ch: ReplyChannel)
      requires Valid() && InPhase(state, id, Allocated) && id in channels && channels[id] == ch
      modifies this
      ensures Valid() && Stepped(old(state), Register(id), state) && channels == old(channels)
      ensures InPhase(state, id, Registered) && state.wire == old(state.wire) && nextID == old(nextID)
      ensures pending == old(pending)[id := ch]
    {
      hide Inv, Stepped, InPhase;
      ghost var next := RegisterEffect(state, id);
      pending := pending[id := ch];
      state := next;
    }

    /** The request's frame, which reaches the wire or not. */
    method Write(ghost id: nat, written: bool)
      requires Valid() && InPhase(state, id, Registered)
      modifies `state
      ensures Valid() && Stepped(old(state), WriteOf(id, written), state)
      ensures InPhase(state, id, if written then Waiting else WriteFailed)
      ensures state.wire == old(state.wire) + if written then [Request(id)] else []
    {
      hide Inv, Stepped;
      state := WriteEffect(state, id, written);
    }

    /**
     callRaw up to its select, run without interference: the call waits under the next id with its own channel in
     the table and its request on the wire, or the write has failed and the table is as before.
     */
    method StartCall(written: bool) returns (id: nat, ch: ReplyChannel)
      requires Valid()
      modifies this
      ensures Valid() && fresh(ch) && id == old(nextID) + 1 == nextID
      ensures id !in old(pending) && id !in old(channels) && channels == old(channels)[id := ch]
      ensures written ==>
        pending == old(pending)[id := ch] && InPhase(state, id, Waiting) && state.wire == old(state.wire) + [Request(id)]
      ensures !written ==>
        pending == old(pending) && InPhase(state, id, Returned(WriteError)) && state.wire == old(state.wire)
    {
      hide Inv, Stepped, InPhase, Peer.Valid;
      id, ch := Enter();
      Add(id, ch);
      Write(id, written);
      if !written {
        var _ := Delete(id, DropUnwritten(id));
        assert pending == old(pending);
      }
    }

    /** delete(p.pending, idValue), after a failed write or a cancelled context. */
    method Delete(id: nat, ghost a: Action) returns (stillPending: bool)
      requires Valid() && (a == DropUnwritten(id) || a == TakeForCancel(id))
      requires InPhase(state, id, if a.DropUnwritten? then WriteFailed else Waiting)
      modifies this
      ensures Valid() && Stepped(old(state), a, state) && channels == old(channels)
      ensures stillPending == (id in old(pending)) && pending == old(pending) - {id}
      ensures state.wire == old(state.wire) && nextID == old(nextID)
      ensures InPhase(state, id, if a.DropUnwritten? then Returned(WriteError) else Cancelling(stillPending))
    {
      hide Inv, Stepped, InPhase;
      ghost var next := DeleteEffect(state, id, a);
      stillPending := id in pending;
      pending := pending - {id};
      state := next;
    }

    /** Where the read loop is with the channel of call `id`. */
    ghost predicate Resolving(ch: ReplyChannel, id: nat, resolver: Resolver)
      reads `state, `channels
    {
      id in channels && channels[id] == ch && id in state.calls && state.calls[id].resolver == resolver
    }

    /** The locked part of resolvePending. */
    method TakeForReply(msg: RpcMessage) returns (ch: ReplyChannel?, ghost id: nat)
      requires Valid()
      modifies this
      ensures Valid() && channels == old(channels) && Stepped(old(state), TakeForResponse(msg), state)
      ensures ch == null ==> state == old(state) && pending == old(pending)
      ensures ch == null ==> Decimal.RpcId(msg.id).None? || Decimal.RpcId(msg.id).value !in old(pending)
      ensures ch != null ==> Decimal.RpcId(msg.id) == Some(id) && id in old(pending) && old(pending)[id] == ch
      ensures ch != null ==> Resolving(ch, id, Holding(msg)) && pending.Keys == old(pending).Keys - {id}
    {
      hide Inv, Stepped, Decimal.RpcId;
      ch, id := null, 0;
      var parsed := Decimal.RpcId(msg.id);
      if parsed.Some? && parsed.value in pending {
        var key := parsed.value;
        ghost var next := TakeEffect(state, msg, key);
        ch, id := pending[key], key;
        pending := map k | k in pending && k != key :: pending[k];
        state := next;
      } else {
        StrayEffect(state, msg);
      }
    }

    /** ch <- msg; the channel is open and empty whenever the read loop gets here. */
    method SendReply(ch: ReplyChannel, ghost id: nat, msg: RpcMessage)
      requires Valid() && Resolving(ch, id, Holding(msg))
      modifies `state, ch
      ensures Valid() && Stepped(old(state), Send(id), state) && ch.buffer == [msg] && Resolving(ch, id, Sent)
    {
      hide Inv, Stepped;
      ghost var next := SendEffect(state, id, msg);
      ch.Send(msg);
      state := next;
    }

    /** close(ch) after the reply; nobody has closed it before. */
    method CloseReplied(ch: ReplyChannel, ghost id: nat)
      requires Valid() && Resolving(ch, id, Sent)
      modifies `state, ch
      ensures Valid() && Stepped(old(state), CloseReply(id), state) && ch.closed && ch.buffer == old(ch.buffer)
    {
      hide Inv, Stepped;
      ghost var next := CloseReplyEffect(state, id);
      ch.Close();
      state := next;
    }

    /** resolvePending, run without interference between its three parts. */
    method ResolvePending(msg: RpcMessage)
      requires Valid()
      modifies this, channels.Values
      ensures Valid() && channels == old(channels)
      ensures Decimal.RpcId(msg.id).Some? && Decimal.RpcId(msg.id).value in old(pending) ==>
        Resolved(old(pending)[Decimal.RpcId(msg.id).value], msg)
        && pending.Keys == old(pending).Keys - {Decimal.RpcId(msg.id).value}
      ensures Decimal.RpcId(msg.id).None? || Decimal.RpcId(msg.id).value !in old(pending) ==>
        state == old(state) && pending == old(pending)
    {
      hide Inv, Stepped, Decimal.RpcId, Peer.Valid;
      var ch, id := TakeForReply(msg);
      if ch != null {
        SendReply(ch, id, msg);
        CloseReplied(ch, id);
      }
    }

    ghost predicate Resolved(ch: ReplyChannel, msg: RpcMessage)
      reads ch
    {
      ch.buffer == [msg] && ch.closed
    }

    /** Close: the once-guarded part, over the table in any order. */
    method Close()
      requires Valid() && !closed
      modifies this, channels.Values
      ensures Valid() && closed && pending == map[] && channels == old(channels)
      ensures Stepped(old(state).(closing := Signalled), DrainPending, state)
      ensures forall id | id in old(pending) :: old(pending)[id].closed
    {
      hide Inv, Stepped;
      Signal();
      DrainTable();
    }

    /** close(p.closed) */
    method Signal()
      requires Valid() && !closed
      modifies `closed, `state
      ensures Valid() && closed && Stepped(old(state), SignalClose, state)
      ensures state == old(state).(closing := Signalled)
    {
      hide Inv, Stepped;
      ghost var next := SignalEffect(state);
      closed := true;
      state := next;
    }

    /** Every channel of the table is closed once; the order of the map does not matter. */
    method CloseAll()
      requires forall id | id in pending :: id in channels && pending[id] == channels[id] && !pending[id].closed
      requires forall id | id in channels :: channels[id].owner == id
      modifies `pending, channels.Values
      ensures pending == map[]
      ensures forall id | id in channels :: channels[id].buffer == old(channels[id].buffer)
      ensures forall id | id in channels :: channels[id].closed == (old(channels[id].closed) || id in old(pending))
    {
      while pending != map[]
        invariant pending.Keys <= old(pending).Keys
        invariant forall id | id in pending :: id in channels && pending[id] == channels[id] && !pending[id].closed
        invariant forall id | id in channels :: channels[id].buffer == old(channels[id].buffer)
        invariant forall id | id in channels ::
          channels[id].closed == (old(channels[id].closed) || (id in old(pending) && id !in pending))
        decreases pending.Keys
      {
        var id :| id in pending;
        var ch := pending[id];
        pending := map k | k in pending && k != id :: pending[k];
        ch.Close();
      }
    }

    method DrainTable()
      requires Valid() && state.closing == Signalled
      modifies `pending, `state, channels.Values
      ensures Valid() && pending == map[] && Stepped(old(state), DrainPending, state)
      ensures forall id | id in old(pending) :: old(pending)[id].closed
    {
      hide Inv, Stepped;
      ghost var next := DrainEffect(state);
      CloseAll();
      state := next;
    }
  }
}
